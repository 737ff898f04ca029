/** The content store of the server (`server/db/index.js`): the four tables
    in memory, the transactions that create, update and delete posts, and the
    read-only queries over them. A transaction either commits every statement
    or leaves every table as it was. */
module ContentStore {
  import opened Optional
  import opened Schema
  import opened Strings

  /** The post columns a caller passes; `None` is a column left out of the object. */
  datatype PostFields = PostFields(
    slug: Option<string>,
    title: Option<string>,
    content: Option<string>,
    kind: Option<string>,
    featuredImage: Option<string>,
    metadata: Option<string>,
    filePath: Option<string>,
    publishedAt: Option<int>)

  /** `postData`: the columns, and `tags` (an absent array is `[]`). */
  datatype PostData = PostData(fields: PostFields, tags: seq<string>)

  /** `imageData`: the columns of an `images` row. */
  datatype ImageData = ImageData(
    postId: Option<Id>,
    filename: Option<string>,
    path: Option<string>,
    kind: Option<string>,
    createdAt: Option<int>)

  /** The constraint a statement broke, or the missing row. */
  datatype DbError = NotNull | UniqueSlug | UniqueFilePath | UniqueTagName | ForeignKey | NoSuchPost

  datatype Result<T> = Ok(value: T) | Err(error: DbError)

  /** A post as `getPost` and `listPosts` return it: the row and its tag names. */
  datatype PostView = PostView(post: Post, tags: seq<string>)

  /** The options of `listPosts`; `""` and `0` are the falsy values that leave a filter out. */
  datatype Query = Query(kind: string, tag: string, limit: nat, offset: nat)

  // ----- rows -----

  function Given<T>(o: Option<T>, otherwise: T): T {
    if o.Some? then o.value else otherwise
  }

  /** Another row than the one at `except` has this slug. */
  predicate SlugTaken(posts: seq<Post>, slug: string, except: int) {
    exists i :: 0 <= i < |posts| && i != except && posts[i].slug == slug
  }

  /** Another row than the one at `except` has this non-null file path. */
  predicate FilePathTaken(posts: seq<Post>, path: Option<string>, except: int) {
    path.Some? && exists i :: 0 <= i < |posts| && i != except && posts[i].filePath == path
  }

  /** The row `insert(post)` builds as post `id` at time `now`: `type`,
      `published_at` and `updated_at` take their defaults; a left-out
      `slug`, `title` or `content` breaks its not-null constraint. */
  function NewRow(f: PostFields, id: Id, now: int): Result<Post> {
    if f.slug.None? || f.title.None? || f.content.None? then Err(NotNull)
    else Ok(Post(id, f.slug.value, f.title.value, f.content.value, Given(f.kind, DefaultKind),
                 f.featuredImage, f.metadata, f.filePath, Given(f.publishedAt, now), now))
  }

  /** `trx('posts').insert(post)`: the new row, or the constraint it breaks. */
  function InsertRow(posts: seq<Post>, next: Id, f: PostFields, now: int): Result<Post> {
    var r := NewRow(f, next, now);
    if r.Err? then r
    else if SlugTaken(posts, r.value.slug, -1) then Err(UniqueSlug)
    else if FilePathTaken(posts, r.value.filePath, -1) then Err(UniqueFilePath)
    else r
  }

  /** `.update({ ...post, updated_at: now })`: the columns given replace the old ones. */
  function UpdatedRow(p: Post, f: PostFields, now: int): Post {
    p.(slug := Given(f.slug, p.slug), title := Given(f.title, p.title), content := Given(f.content, p.content),
       kind := Given(f.kind, p.kind),
       featuredImage := if f.featuredImage.Some? then f.featuredImage else p.featuredImage,
       metadata := if f.metadata.Some? then f.metadata else p.metadata,
       filePath := if f.filePath.Some? then f.filePath else p.filePath,
       publishedAt := Given(f.publishedAt, p.publishedAt), updatedAt := now)
  }

  /** `.where({ column: k })` on a table: the index of the row whose `key` is `k`. */
  function FindBy<T, K(==)>(rows: seq<T>, key: T -> K, k: K): (r: Option<nat>)
    ensures r.Some? ==> r.value < |rows| && key(rows[r.value]) == k
    ensures r.None? <==> forall i :: 0 <= i < |rows| ==> key(rows[i]) != k
    decreases |rows|
  {
    if rows == [] then None
    else if key(rows[|rows| - 1]) == k then Some(|rows| - 1)
    else FindBy(rows[..|rows| - 1], key, k)
  }

  /** `.where({ slug })`: the index of the row with this slug. */
  function FindSlug(posts: seq<Post>, slug: string): (r: Option<nat>)
    ensures r.Some? ==> r.value < |posts| && posts[r.value].slug == slug
    ensures r.None? <==> forall i :: 0 <= i < |posts| ==> posts[i].slug != slug
  {
    FindBy(posts, (p: Post) => p.slug, slug)
  }

  /** `getPost(slug)` over the tables: `null` when no row has the slug, else
      the row and the names of the tags linked to it. */
  function Lookup(posts: seq<Post>, tags: seq<Tag>, links: set<Link>, slug: string): (r: Option<PostView>)
    ensures r.None? <==> forall i :: 0 <= i < |posts| ==> posts[i].slug != slug
    ensures r.Some? ==> (r.value.post in posts && r.value.post.slug == slug
      && r.value.tags == TagNames(tags, links, r.value.post.id))
  {
    match FindSlug(posts, slug)
    case None => None
    case Some(k) => Some(PostView(posts[k], TagNames(tags, links, posts[k].id)))
  }

  /** With unique slugs the lookup finds the one row that has the slug. */
  lemma FindUniqueSlug(posts: seq<Post>, next: Id, k: int)
    requires PostsTable(posts, next) && 0 <= k < |posts|
    ensures FindSlug(posts, posts[k].slug) == Some(k)
  {
  }

  // ----- tag resolution -----

  predicate NoRepeats(names: seq<string>) {
    forall i, j :: 0 <= i < j < |names| ==> names[i] != names[j]
  }

  /** `tags.filter(t => !existingTagNames.includes(t))`: the requested names
      that have no row yet, in request order, repeats kept. */
  function Missing(tags: seq<Tag>, requested: seq<string>): (r: seq<string>)
    ensures forall n :: n in r <==> n in requested && n !in Names(tags)
    decreases |requested|
  {
    if requested == [] then []
    else (if requested[0] in Names(tags) then [] else [requested[0]]) + Missing(tags, requested[1..])
  }

  /** `insert(newTags.map(name => ({ name })))`: one row per name, the ids counting up from `next`. */
  function TagRows(names: seq<string>, next: Id): (r: seq<Tag>)
    ensures |r| == |names| && forall k :: 0 <= k < |names| ==> r[k] == Tag(next + k, names[k])
  {
    seq(|names|, k requires 0 <= k < |names| => Tag(next + k, names[k]))
  }

  /** The `post_tags` rows inserted for post `id`: one per tag row whose name
      was requested (`whereIn('name', tags)`). */
  function LinksTo(id: Id, tags: seq<Tag>, requested: seq<string>): (r: set<Link>)
    ensures forall l :: l in r <==> l.postId == id && exists i :: 0 <= i < |tags| && tags[i].name in requested && tags[i].id == l.tagId
  {
    set i | 0 <= i < |tags| && tags[i].name in requested :: Link(id, tags[i].id)
  }

  /** The names of the tags linked to post `id`, in the order of the tag table. */
  function TagNames(tags: seq<Tag>, links: set<Link>, id: Id): (r: seq<string>)
    ensures forall n :: n in r <==> exists i :: 0 <= i < |tags| && tags[i].name == n && Link(id, tags[i].id) in links
    decreases |tags|
  {
    if tags == [] then []
    else
      var last := tags[|tags| - 1];
      var rest := TagNames(tags[..|tags| - 1], links, id);
      assert forall i :: 0 <= i < |tags| - 1 ==> tags[..|tags| - 1][i] == tags[i];
      rest + (if Link(id, last.id) in links then [last.name] else [])
  }

  /** Appending fresh rows for names that are new and not repeated keeps the tag table's constraints. */
  lemma AppendTagRows(tags: seq<Tag>, next: Id, names: seq<string>)
    requires TagsTable(tags, next) && NoRepeats(names)
    requires forall n :: n in names ==> n !in Names(tags)
    ensures TagsTable(tags + TagRows(names, next), next + |names|)
    ensures TagIds(tags) <= TagIds(tags + TagRows(names, next))
  {
    var t := tags + TagRows(names, next);
    forall i, j | 0 <= i < j < |t| ensures t[i].name != t[j].name {
      if j >= |tags| && i < |tags| {
        assert t[j].name == names[j - |tags|];
        assert t[i].name in Names(tags);
      }
    }
    forall x | x in TagIds(tags) ensures x in TagIds(t) {
      var i :| 0 <= i < |tags| && tags[i].id == x;
      assert t[i] == tags[i];
    }
  }

  /** With unique names in the tag table, a post's tag list repeats no name. */
  lemma {:induction false} TagNamesNoRepeats(tags: seq<Tag>, links: set<Link>, id: Id)
    requires forall i, j :: 0 <= i < j < |tags| ==> tags[i].name != tags[j].name
    ensures NoRepeats(TagNames(tags, links, id))
    decreases |tags|
  {
    if tags != [] {
      var pre := tags[..|tags| - 1];
      var last := tags[|tags| - 1];
      assert forall i :: 0 <= i < |pre| ==> pre[i] == tags[i];
      TagNamesNoRepeats(pre, links, id);
      assert last.name !in TagNames(pre, links, id);
    }
  }

  /** After the tag part of a transaction, the names linked to the post are
      exactly the requested ones, each once, whatever was linked to other posts. */
  lemma ResolvedNames(tags: seq<Tag>, next: Id, links: set<Link>, id: Id, requested: seq<string>)
    requires TagsTable(tags, next) && NoRepeats(Missing(tags, requested))
    requires forall l :: l in links ==> l.postId != id
    ensures var t := tags + TagRows(Missing(tags, requested), next);
      var names := TagNames(t, links + LinksTo(id, t, requested), id);
      (forall n :: n in names <==> n in requested) && NoRepeats(names)
  {
    var missing := Missing(tags, requested);
    var t := tags + TagRows(missing, next);
    AppendTagRows(tags, next, missing);
    TagNamesNoRepeats(t, links + LinksTo(id, t, requested), id);
    RequestedLinked(tags, next, links, id, requested);
    LinkedRequested(t, next + |missing|, links, id, requested);
  }

  /** Every requested name has a row afterwards, linked to the post. */
  lemma RequestedLinked(tags: seq<Tag>, next: Id, links: set<Link>, id: Id, requested: seq<string>)
    ensures var t := tags + TagRows(Missing(tags, requested), next);
      forall n :: n in requested ==> n in TagNames(t, links + LinksTo(id, t, requested), id)
  {
    var missing := Missing(tags, requested);
    var t := tags + TagRows(missing, next);
    var all := links + LinksTo(id, t, requested);
    forall n | n in requested ensures n in TagNames(t, all, id) {
      var i: int;
      if n in Names(tags) {
        i :| 0 <= i < |tags| && tags[i].name == n;
        assert t[i] == tags[i];
      } else {
        var m :| 0 <= m < |missing| && missing[m] == n;
        i := |tags| + m;
        assert t[i] == Tag(next + m, n);
      }
      assert Link(id, t[i].id) in all;
    }
  }

  /** A name linked to the post afterwards was requested: other posts' links
      do not count, and a tag id names one row. */
  lemma LinkedRequested(t: seq<Tag>, next: Id, links: set<Link>, id: Id, requested: seq<string>)
    requires TagsTable(t, next)
    requires forall l :: l in links ==> l.postId != id
    ensures forall n :: n in TagNames(t, links + LinksTo(id, t, requested), id) ==> n in requested
  {
    var all := links + LinksTo(id, t, requested);
    forall n | n in TagNames(t, all, id) ensures n in requested {
      var i :| 0 <= i < |t| && t[i].name == n && Link(id, t[i].id) in all;
      var j :| 0 <= j < |t| && t[j].name in requested && t[j].id == t[i].id;
      assert !(i < j) && !(j < i);
    }
  }

  /** The round trip of `createPost` and `getPost`: the new row is found by
      its slug, with exactly the requested tag names, each once. */
  lemma CreateThenGet(posts: seq<Post>, tags: seq<Tag>, links: set<Link>, nextPost: Id, nextTag: Id,
                      row: Post, requested: seq<string>)
    requires PostsTable(posts, nextPost) && TagsTable(tags, nextTag) && LinksTable(links, posts, tags)
    requires row.id == nextPost && !SlugTaken(posts, row.slug, -1) && !FilePathTaken(posts, row.filePath, -1)
    requires NoRepeats(Missing(tags, requested))
    ensures var t := tags + TagRows(Missing(tags, requested), nextTag);
      var v := Lookup(posts + [row], t, links + LinksTo(row.id, t, requested), row.slug);
      && v.Some? && v.value.post == row
      && (forall n :: n in v.value.tags <==> n in requested) && NoRepeats(v.value.tags)
  {
    AppendPost(posts, nextPost, row);
    FindUniqueSlug(posts + [row], nextPost + 1, |posts|);
    ResolvedNames(tags, nextTag, links, row.id, requested);
  }

  /** The round trip of `updatePost` and `getPost`: the updated row is found by
      its (possibly new) slug, with exactly the requested tag names, each once. */
  lemma UpdateThenGet(posts: seq<Post>, tags: seq<Tag>, links: set<Link>, nextPost: Id, nextTag: Id,
                      k: int, row: Post, requested: seq<string>)
    requires PostsTable(posts, nextPost) && TagsTable(tags, nextTag) && 0 <= k < |posts|
    requires row.id == posts[k].id && !SlugTaken(posts, row.slug, k) && !FilePathTaken(posts, row.filePath, k)
    requires NoRepeats(Missing(tags, requested))
    ensures var t := tags + TagRows(Missing(tags, requested), nextTag);
      var v := Lookup(posts[k := row], t, LinksWithoutPost(links, row.id) + LinksTo(row.id, t, requested), row.slug);
      && v.Some? && v.value.post == row
      && (forall n :: n in v.value.tags <==> n in requested) && NoRepeats(v.value.tags)
  {
    ReplacePost(posts, nextPost, k, row);
    FindUniqueSlug(posts[k := row], nextPost, k);
    ResolvedNames(tags, nextTag, LinksWithoutPost(links, row.id), row.id, requested);
  }

  /** Tag rows no link of the post names do not change its tag list. */
  lemma {:induction false} TagNamesAppendUnlinked(tags: seq<Tag>, extra: seq<Tag>, links: set<Link>, id: Id)
    requires forall i :: 0 <= i < |extra| ==> Link(id, extra[i].id) !in links
    ensures TagNames(tags + extra, links, id) == TagNames(tags, links, id)
    decreases |extra|
  {
    if extra != [] {
      var pre := extra[..|extra| - 1];
      assert (tags + extra)[..|tags + extra| - 1] == tags + pre;
      assert (tags + extra)[|tags + extra| - 1] == extra[|extra| - 1];
      assert forall i :: 0 <= i < |pre| ==> pre[i] == extra[i];
      TagNamesAppendUnlinked(tags, pre, links, id);
    } else {
      assert tags + extra == tags;
    }
  }

  /** A post's tag list depends only on the links of that post. */
  lemma {:induction false} TagNamesSameLinks(tags: seq<Tag>, before: set<Link>, after: set<Link>, id: Id)
    requires forall l: Link :: l.postId == id ==> (l in before <==> l in after)
    ensures TagNames(tags, before, id) == TagNames(tags, after, id)
    decreases |tags|
  {
    if tags != [] {
      TagNamesSameLinks(tags[..|tags| - 1], before, after, id);
    }
  }

  /** Replacing the tags of post `id` leaves every other post's tag list as it was. */
  lemma OtherPostsKeepTags(tags: seq<Tag>, next: Id, links: set<Link>, posts: seq<Post>,
                           id: Id, requested: seq<string>, other: Id)
    requires TagsTable(tags, next) && LinksTable(links, posts, tags) && other != id
    ensures var t := tags + TagRows(Missing(tags, requested), next);
      TagNames(t, LinksWithoutPost(links, id) + LinksTo(id, t, requested), other) == TagNames(tags, links, other)
  {
    var missing := Missing(tags, requested);
    var t := tags + TagRows(missing, next);
    var after := LinksWithoutPost(links, id) + LinksTo(id, t, requested);
    TagNamesSameLinks(t, after, links, other);
    var extra := TagRows(missing, next);
    assert forall x :: x in TagIds(tags) ==> x < next;
    assert forall i :: 0 <= i < |extra| ==> extra[i].id >= next;
    TagNamesAppendUnlinked(tags, extra, links, other);
  }

  // ----- the queries -----

  /** The row passes the `type` and `tag` filters of the query. */
  predicate Selected(tags: seq<Tag>, links: set<Link>, q: Query, p: Post) {
    (q.kind == "" || p.kind == q.kind) && (q.tag == "" || q.tag in TagNames(tags, links, p.id))
  }

  /** The rows that pass the filters, in table order. */
  function Filtered(posts: seq<Post>, tags: seq<Tag>, links: set<Link>, q: Query): (r: seq<Post>)
    ensures forall p :: p in r <==> p in posts && Selected(tags, links, q, p)
    ensures multiset(r) <= multiset(posts)
    decreases |posts|
  {
    if posts == [] then []
    else
      var last := posts[|posts| - 1];
      var rest := Filtered(posts[..|posts| - 1], tags, links, q);
      assert posts == posts[..|posts| - 1] + [last];
      rest + (if Selected(tags, links, q, last) then [last] else [])
  }

  predicate NewestFirst(rows: seq<Post>) {
    forall i, j :: 0 <= i < j < |rows| ==> rows[i].publishedAt >= rows[j].publishedAt
  }

  /** `row` put before the first row published earlier than it. */
  function InsertNewest(row: Post, sorted: seq<Post>): (r: seq<Post>)
    requires NewestFirst(sorted)
    ensures NewestFirst(r)
    ensures multiset(r) == multiset(sorted) + multiset{row}
    ensures |r| > 0 && (r[0] == row || (sorted != [] && r[0] == sorted[0]))
    decreases |sorted|
  {
    if sorted == [] || row.publishedAt >= sorted[0].publishedAt then
      [row] + sorted
    else
      var rest := InsertNewest(row, sorted[1..]);
      assert sorted == [sorted[0]] + sorted[1..];
      assert rest[0].publishedAt <= sorted[0].publishedAt;
      [sorted[0]] + rest
  }

  /** `orderBy('posts.published_at', 'desc')`. */
  function NewestFirstOrder(rows: seq<Post>): (r: seq<Post>)
    ensures NewestFirst(r)
    ensures multiset(r) == multiset(rows)
    decreases |rows|
  {
    if rows == [] then []
    else
      assert rows == [rows[0]] + rows[1..];
      InsertNewest(rows[0], NewestFirstOrder(rows[1..]))
  }

  /** `offset(n)` and then `limit(m)`, each only when truthy. */
  function Page<T>(xs: seq<T>, limit: nat, offset: nat): (r: seq<T>)
    ensures limit > 0 ==> |r| <= limit
    ensures offset == 0 && limit == 0 ==> r == xs
    ensures forall k :: 0 <= k < |r| ==> offset + k < |xs| && r[k] == xs[offset + k]
    ensures offset < |xs| && (limit == 0 || offset + limit >= |xs|) ==> |r| == |xs| - offset
    ensures offset >= |xs| ==> r == []
  {
    var skipped := if offset < |xs| then xs[offset..] else [];
    if 0 < limit < |skipped| then skipped[..limit] else skipped
  }

  /** `listPosts({ type, tag, limit, offset })` over the tables: the selected
      rows newest first, each with its full tag list, one page of them. */
  function Listing(posts: seq<Post>, tags: seq<Tag>, links: set<Link>, q: Query): seq<PostView>
  {
    Page(Views(NewestFirstOrder(Filtered(posts, tags, links, q)), tags, links), q.limit, q.offset)
  }

  /** The rows of a listing, without their tags. */
  function PostsOf(views: seq<PostView>): (r: seq<Post>)
    ensures |r| == |views| && forall k :: 0 <= k < |views| ==> r[k] == views[k].post
  {
    seq(|views|, k requires 0 <= k < |views| => views[k].post)
  }

  /** `posts.map(post => ({ ...post, tags }))`: each row with its tag names. */
  function Views(rows: seq<Post>, tags: seq<Tag>, links: set<Link>): (r: seq<PostView>)
    ensures |r| == |rows| && forall k :: 0 <= k < |rows| ==> r[k] == PostView(rows[k], TagNames(tags, links, rows[k].id))
  {
    seq(|rows|, k requires 0 <= k < |rows| => PostView(rows[k], TagNames(tags, links, rows[k].id)))
  }

  /** Every listed post is a row of the table that passes the filters, and
      carries its full tag list (not only the tag filtered on). */
  lemma ListingSelected(posts: seq<Post>, tags: seq<Tag>, links: set<Link>, q: Query)
    ensures var r := Listing(posts, tags, links, q);
      forall k :: 0 <= k < |r| ==>
        r[k].post in posts && Selected(tags, links, q, r[k].post) && r[k].tags == TagNames(tags, links, r[k].post.id)
  {
    var rows := NewestFirstOrder(Filtered(posts, tags, links, q));
    var r := Listing(posts, tags, links, q);
    forall k | 0 <= k < |r|
      ensures r[k].post in posts && Selected(tags, links, q, r[k].post)
    {
      assert r[k].post == rows[q.offset + k];
      assert rows[q.offset + k] in multiset(Filtered(posts, tags, links, q));
    }
  }

  /** The page is newest first. */
  lemma ListingNewestFirst(posts: seq<Post>, tags: seq<Tag>, links: set<Link>, q: Query)
    ensures var r := Listing(posts, tags, links, q);
      forall i, j :: 0 <= i < j < |r| ==> r[i].post.publishedAt >= r[j].post.publishedAt
  {
    var rows := NewestFirstOrder(Filtered(posts, tags, links, q));
    var r := Listing(posts, tags, links, q);
    assert forall k :: 0 <= k < |r| ==> r[k].post == rows[q.offset + k];
  }

  /** Without a limit or an offset every selected row is listed, as often as it
      occurs in the table. */
  lemma ListingComplete(posts: seq<Post>, tags: seq<Tag>, links: set<Link>, q: Query)
    requires q.limit == 0 && q.offset == 0
    ensures var r := Listing(posts, tags, links, q);
      multiset(PostsOf(r)) == multiset(Filtered(posts, tags, links, q))
  {
    var rows := NewestFirstOrder(Filtered(posts, tags, links, q));
    var views := Views(rows, tags, links);
    assert Listing(posts, tags, links, q) == views;
    assert PostsOf(views) == rows;
  }

  /** As written, `listPosts` reads a post's tags back from
      `GROUP_CONCAT(tags.name)` split on `,`: `null` or `""` gives `[]`. */
  function ConcatenatedTags(names: seq<string>): seq<string> {
    var joined := Join(names, ",");
    if joined == "" then [] else Split(joined, ",")
  }

  /** A post with the single tag `a,b` is listed with the two tags `a` and `b`. */
  lemma ConcatenatedTagsSplitComma()
    ensures ConcatenatedTags(["a,b"]) == ["a", "b"]
  {
    assert Join(["a,b"], ",") == "a" + "," + "b";
    CleanSingle("a", ',');
    SplitCons("a", ",", "b");
    ContainsChar("b", ',');
    SplitNone("b", ",");
  }

  /** The concatenation gives back the tag list when no name holds a comma and
      the list is not the single empty name. */
  lemma ConcatenatedTagsAgree(names: seq<string>)
    requires forall n :: n in names ==> ',' !in n
    requires names != [""]
    ensures ConcatenatedTags(names) == names
  {
    if names != [] {
      forall k | 0 <= k < |names| - 1 ensures Clean(names[k], ",") {
        CleanSingle(names[k], ',');
      }
      ContainsChar(names[|names| - 1], ',');
      SplitJoin(names, ",");
    }
  }

  /** `getPostImages(postId)`: the images of the post, in table order. */
  function ImagesOf(images: seq<Image>, postId: Id): (r: seq<Image>)
    ensures forall x :: x in r <==> x in images && x.postId == Some(postId)
    decreases |images|
  {
    if images == [] then []
    else
      var last := images[|images| - 1];
      var rest := ImagesOf(images[..|images| - 1], postId);
      assert images == images[..|images| - 1] + [last];
      rest + (if last.postId == Some(postId) then [last] else [])
  }

  /** `.where({ id })` on `images`: the index of the image with this id. */
  function FindImage(images: seq<Image>, id: Id): (r: Option<nat>)
    ensures r.Some? ==> r.value < |images| && images[r.value].id == id
    ensures r.None? <==> forall i :: 0 <= i < |images| ==> images[i].id != id
  {
    FindBy(images, (m: Image) => m.id, id)
  }

  /** The store: the four tables and the next id of each `increments` column. */
  class Store {
    var posts: seq<Post>
    var tags: seq<Tag>
    var links: set<Link>
    var images: seq<Image>
    var nextPost: Id
    var nextTag: Id
    var nextImage: Id

    ghost predicate Valid()
      reads this
    {
      Consistent(posts, tags, links, images, nextPost, nextTag, nextImage)
    }

    /** The tables after the migration's `up`: empty, the ids starting at 1. */
    constructor()
      ensures Valid()
      ensures posts == [] && tags == [] && links == {} && images == []
      ensures nextPost == 1 && nextTag == 1 && nextImage == 1
    {
      posts, tags, links, images := [], [], {}, [];
      nextPost, nextTag, nextImage := 1, 1, 1;
    }

    /** `trx('posts').insert(post)`. */
    method InsertPost(f: PostFields, now: int) returns (r: Result<Id>)
      requires Valid()
      modifies this
      ensures Valid()
      ensures var row := InsertRow(old(posts), old(nextPost), f, now);
        && (row.Ok? ==> r == Ok(old(nextPost)) && posts == old(posts) + [row.value] && nextPost == old(nextPost) + 1)
        && (row.Err? ==> r == Err(row.error) && posts == old(posts) && nextPost == old(nextPost))
      ensures tags == old(tags) && links == old(links) && images == old(images)
      ensures nextTag == old(nextTag) && nextImage == old(nextImage)
    {
      var row := InsertRow(posts, nextPost, f, now);
      if row.Err? {
        return Err(row.error);
      }
      AppendPost(posts, nextPost, row.value);
      posts := posts + [row.value];
      nextPost := nextPost + 1;
      r := Ok(row.value.id);
    }

    /** The tag part of both transactions: insert the missing names, then
        link post `id` to every requested tag. */
    method ResolveTags(id: Id, requested: seq<string>) returns (ok: bool)
      requires Valid()
      requires id in PostIds(posts)
      requires forall l :: l in links ==> l.postId != id
      modifies this
      ensures Valid()
      ensures ok <==> NoRepeats(Missing(old(tags), requested))
      ensures ok ==>
        && tags == old(tags) + TagRows(Missing(old(tags), requested), old(nextTag))
        && nextTag == old(nextTag) + |Missing(old(tags), requested)|
        && links == old(links) + LinksTo(id, tags, requested)
      ensures !ok ==> tags == old(tags) && links == old(links) && nextTag == old(nextTag)
      ensures posts == old(posts) && images == old(images) && nextPost == old(nextPost) && nextImage == old(nextImage)
    {
      var newTags := Missing(tags, requested);
      if |newTags| > 0 {
        if !NoRepeats(newTags) {
          return false;
        }
        AppendTagRows(tags, nextTag, newTags);
        tags := tags + TagRows(newTags, nextTag);
        nextTag := nextTag + |newTags|;
      }
      links := links + LinksTo(id, tags, requested);
      ok := true;
    }

    /** `createPost(postData)`: the post row, then its tags, in one transaction. */
    method CreatePost(data: PostData, now: int) returns (r: Result<Id>)
      requires Valid()
      modifies this
      ensures Valid()
      ensures var row := InsertRow(old(posts), old(nextPost), data.fields, now);
        r.Ok? <==> row.Ok? && NoRepeats(Missing(old(tags), data.tags))
      ensures r.Err? ==>
        && posts == old(posts) && tags == old(tags) && links == old(links) && images == old(images)
        && nextPost == old(nextPost) && nextTag == old(nextTag) && nextImage == old(nextImage)
      ensures r.Ok? ==>
        var missing := Missing(old(tags), data.tags);
        && r.value == old(nextPost)
        && posts == old(posts) + [InsertRow(old(posts), old(nextPost), data.fields, now).value]
        && nextPost == old(nextPost) + 1
        && tags == old(tags) + TagRows(missing, old(nextTag)) && nextTag == old(nextTag) + |missing|
        && links == old(links) + LinksTo(r.value, tags, data.tags)
        && images == old(images) && nextImage == old(nextImage)
    {
      var savedPosts, savedNext := posts, nextPost;
      r := InsertPost(data.fields, now);
      if r.Err? {
        return;
      }
      var id := r.value;
      if |data.tags| > 0 {
        FreshPostUnlinked(posts, links, tags, id);
        var ok := ResolveTags(id, data.tags);
        if !ok {
          posts, nextPost := savedPosts, savedNext;
          return Err(UniqueTagName);
        }
      } else {
        assert LinksTo(id, tags, data.tags) == {};
      }
    }

    /** `updatePost(slug, postData)`: the row's columns, then its tag set
        replaced, in one transaction. */
    method UpdatePost(slug: string, data: PostData, now: int) returns (r: Result<Id>)
      requires Valid()
      modifies this
      ensures Valid()
      ensures r.Err? ==>
        && posts == old(posts) && tags == old(tags) && links == old(links) && images == old(images)
        && nextPost == old(nextPost) && nextTag == old(nextTag) && nextImage == old(nextImage)
      ensures FindSlug(old(posts), slug).None? ==> r == Err(NoSuchPost)
      ensures FindSlug(old(posts), slug).Some? ==>
        var k := FindSlug(old(posts), slug).value;
        var row := UpdatedRow(old(posts)[k], data.fields, now);
        var missing := Missing(old(tags), data.tags);
        && (r.Ok? <==> !SlugTaken(old(posts), row.slug, k) && !FilePathTaken(old(posts), row.filePath, k) && NoRepeats(missing))
        && (r.Ok? ==>
          && r.value == row.id
          && posts == old(posts)[k := row]
          && tags == old(tags) + TagRows(missing, old(nextTag)) && nextTag == old(nextTag) + |missing|
          && links == LinksWithoutPost(old(links), row.id) + LinksTo(row.id, tags, data.tags)
          && images == old(images) && nextPost == old(nextPost) && nextImage == old(nextImage))
    {
      var found := FindSlug(posts, slug);
      if found.None? {
        return Err(NoSuchPost);
      }
      var k := found.value;
      var row := UpdatedRow(posts[k], data.fields, now);
      if SlugTaken(posts, row.slug, k) {
        return Err(UniqueSlug);
      }
      if FilePathTaken(posts, row.filePath, k) {
        return Err(UniqueFilePath);
      }
      var savedPosts, savedLinks := posts, links;
      ReplacePost(posts, nextPost, k, row);
      posts := posts[k := row];
      links := LinksWithoutPost(links, row.id);
      if |data.tags| > 0 {
        var ok := ResolveTags(row.id, data.tags);
        if !ok {
          posts, links := savedPosts, savedLinks;
          return Err(UniqueTagName);
        }
      } else {
        assert LinksTo(row.id, tags, data.tags) == {};
      }
      r := Ok(row.id);
    }

    /** `deletePost(slug)`: the row goes, and with it (cascade) its links and images. */
    method DeletePost(slug: string) returns (count: nat)
      requires Valid()
      modifies this
      ensures Valid()
      ensures count <= 1 && forall i :: 0 <= i < |posts| ==> posts[i].slug != slug
      ensures FindSlug(old(posts), slug).None? ==>
        count == 0 && posts == old(posts) && links == old(links) && images == old(images)
      ensures FindSlug(old(posts), slug).Some? ==>
        var k := FindSlug(old(posts), slug).value;
        && count == 1 && posts == old(posts)[..k] + old(posts)[k + 1..]
        && links == LinksWithoutPost(old(links), old(posts)[k].id)
        && images == ImagesWithoutPost(old(images), old(posts)[k].id)
      ensures tags == old(tags) && nextPost == old(nextPost) && nextTag == old(nextTag) && nextImage == old(nextImage)
    {
      var found := FindSlug(posts, slug);
      if found.None? {
        return 0;
      }
      var k := found.value;
      var id := posts[k].id;
      DeletePostConsistent(posts, tags, links, images, nextPost, nextTag, nextImage, k);
      SlugGone(posts, nextPost, k);
      posts := posts[..k] + posts[k + 1..];
      links := LinksWithoutPost(links, id);
      images := ImagesWithoutPost(images, id);
      count := 1;
    }

    /** `getPost(slug)`: `null` when no row has the slug, else the row and the
        names of exactly the tags linked to it. */
    function GetPost(slug: string): (r: Option<PostView>)
      reads this
    {
      Lookup(posts, tags, links, slug)
    }

    /** `listPosts(options)` */
    function ListPosts(q: Query): seq<PostView>
      reads this
    {
      Listing(posts, tags, links, q)
    }

    /** `addImage(imageData)`: one row, returned as inserted. */
    method AddImage(data: ImageData, now: int) returns (r: Result<Image>)
      requires Valid()
      modifies this
      ensures Valid()
      ensures r.Ok? <==> (data.filename.Some? && data.path.Some? && data.kind.Some?
        && (data.postId.Some? ==> data.postId.value in PostIds(posts)))
      ensures r.Ok? ==>
        && r.value == Image(old(nextImage), data.postId, data.filename.value, data.path.value, data.kind.value,
                            Given(data.createdAt, now))
        && images == old(images) + [r.value] && nextImage == old(nextImage) + 1
      ensures r.Err? ==> images == old(images) && nextImage == old(nextImage)
      ensures posts == old(posts) && tags == old(tags) && links == old(links)
      ensures nextPost == old(nextPost) && nextTag == old(nextTag)
    {
      if data.filename.None? || data.path.None? || data.kind.None? {
        return Err(NotNull);
      }
      if data.postId.Some? && data.postId.value !in PostIds(posts) {
        return Err(ForeignKey);
      }
      var row := Image(nextImage, data.postId, data.filename.value, data.path.value, data.kind.value,
                       Given(data.createdAt, now));
      AppendImage(images, posts, nextImage, row);
      images := images + [row];
      nextImage := nextImage + 1;
      r := Ok(row);
    }

    /** `getPostImages(postId)` */
    function GetPostImages(postId: Id): (r: seq<Image>)
      reads this
      ensures forall x :: x in r <==> x in images && x.postId == Some(postId)
    {
      ImagesOf(images, postId)
    }

    /** `deleteImage(id)`: only the image with that id goes. */
    method DeleteImage(id: Id) returns (count: nat)
      requires Valid()
      modifies this
      ensures Valid()
      ensures count <= 1 && forall i :: 0 <= i < |images| ==> images[i].id != id
      ensures FindImage(old(images), id).None? ==> count == 0 && images == old(images)
      ensures FindImage(old(images), id).Some? ==>
        var k := FindImage(old(images), id).value;
        count == 1 && images == old(images)[..k] + old(images)[k + 1..]
      ensures posts == old(posts) && tags == old(tags) && links == old(links)
      ensures nextPost == old(nextPost) && nextTag == old(nextTag) && nextImage == old(nextImage)
    {
      var found := FindImage(images, id);
      if found.None? {
        return 0;
      }
      var k := found.value;
      RemoveImage(images, posts, nextImage, k);
      images := images[..k] + images[k + 1..];
      count := 1;
    }
  }

  // ----- the constraints across the transactions -----

  lemma AppendPost(posts: seq<Post>, next: Id, row: Post)
    requires PostsTable(posts, next) && row.id == next
    requires !SlugTaken(posts, row.slug, -1) && !FilePathTaken(posts, row.filePath, -1)
    ensures PostsTable(posts + [row], next + 1)
    ensures PostIds(posts + [row]) == PostIds(posts) + {row.id}
  {
    var p := posts + [row];
    forall i, j | 0 <= i < j < |p| ensures p[i].slug != p[j].slug {
      if j == |posts| {
        assert p[i] == posts[i];
      }
    }
    forall i, j | 0 <= i < j < |p| && p[i].filePath.Some? ensures p[i].filePath != p[j].filePath {
      if j == |posts| {
        assert p[i] == posts[i];
      }
    }
    assert forall i :: 0 <= i < |posts| ==> p[i] == posts[i];
    assert p[|posts|] == row;
    forall x | x in PostIds(p) ensures x in PostIds(posts) + {row.id} {
      var i :| 0 <= i < |p| && p[i].id == x;
      if i < |posts| {
        assert posts[i].id == x;
      }
    }
  }

  lemma ReplacePost(posts: seq<Post>, next: Id, k: int, row: Post)
    requires PostsTable(posts, next) && 0 <= k < |posts| && row.id == posts[k].id
    requires !SlugTaken(posts, row.slug, k) && !FilePathTaken(posts, row.filePath, k)
    ensures PostsTable(posts[k := row], next)
    ensures PostIds(posts[k := row]) == PostIds(posts)
  {
    var p := posts[k := row];
    forall i, j | 0 <= i < j < |p| ensures p[i].slug != p[j].slug {
      if i == k {
        assert p[j] == posts[j];
      } else if j == k {
        assert p[i] == posts[i];
      }
    }
    forall i, j | 0 <= i < j < |p| && p[i].filePath.Some? ensures p[i].filePath != p[j].filePath {
      if i == k {
        assert p[j] == posts[j];
      } else if j == k {
        assert p[i] == posts[i];
      }
    }
    assert forall i :: 0 <= i < |posts| ==> p[i].id == posts[i].id;
  }

  /** A new post id is above every id in the table, so no link names it yet. */
  lemma FreshPostUnlinked(posts: seq<Post>, links: set<Link>, tags: seq<Tag>, id: Id)
    requires |posts| > 0 && posts[|posts| - 1].id == id
    requires PostsTable(posts[..|posts| - 1], id)
    requires LinksTable(links, posts[..|posts| - 1], tags)
    ensures forall l :: l in links ==> l.postId != id
  {
  }

  /** With unique slugs, removing the row with the slug leaves none with it. */
  lemma SlugGone(posts: seq<Post>, next: Id, k: int)
    requires PostsTable(posts, next) && 0 <= k < |posts|
    ensures forall p :: p in posts[..k] + posts[k + 1..] ==> p.slug != posts[k].slug
  {
    var rest := posts[..k] + posts[k + 1..];
    forall i | 0 <= i < |rest| ensures rest[i].slug != posts[k].slug {
      if i < k {
        assert rest[i] == posts[i];
      } else {
        assert rest[i] == posts[i + 1];
      }
    }
  }

  lemma AppendImage(images: seq<Image>, posts: seq<Post>, next: Id, row: Image)
    requires ImagesTable(images, posts, next) && row.id == next
    requires row.postId.Some? ==> row.postId.value in PostIds(posts)
    ensures ImagesTable(images + [row], posts, next + 1)
  {
    AppendAscends(images, row);
  }

  lemma RemoveImage(images: seq<Image>, posts: seq<Post>, next: Id, k: int)
    requires ImagesTable(images, posts, next) && 0 <= k < |images|
    ensures ImagesTable(images[..k] + images[k + 1..], posts, next)
    ensures forall x :: x in images[..k] + images[k + 1..] ==> x.id != images[k].id
  {
    var rest := images[..k] + images[k + 1..];
    assert forall i :: 0 <= i < |rest| ==> rest[i] == images[if i < k then i else i + 1];
  }
}
