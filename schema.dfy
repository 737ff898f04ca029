/** The tables of the initial migration (`posts`, `tags`, `post_tags`,
    `images`) and the constraints they declare: primary keys, unique and
    not-null columns, foreign keys with cascading deletes, and the order in
    which `up` creates and `down` drops the tables. */
module Schema {
  import opened Optional

  type Id = nat

  /** A `posts` row. `slug`, `title` and `content` are not null. */
  datatype Post = Post(
    id: Id,
    slug: string,
    title: string,
    content: string,
    kind: string,
    featuredImage: Option<string>,
    metadata: Option<string>,
    filePath: Option<string>,
    publishedAt: int,
    updatedAt: int)

  /** A `tags` row; `name` is not null and unique. */
  datatype Tag = Tag(id: Id, name: string)

  /** A `post_tags` row; the pair is the table's primary key, so the table is a set. */
  datatype Link = Link(postId: Id, tagId: Id)

  /** An `images` row; `post_id` may be null. */
  datatype Image = Image(id: Id, postId: Option<Id>, filename: string, path: string, kind: string, createdAt: int)

  /** `type` when the insert gives none. */
  const DefaultKind: string := "post"

  function PostIds(posts: seq<Post>): set<Id> {
    set i | 0 <= i < |posts| :: posts[i].id
  }

  function TagIds(tags: seq<Tag>): set<Id> {
    set i | 0 <= i < |tags| :: tags[i].id
  }

  function Names(tags: seq<Tag>): set<string> {
    set i | 0 <= i < |tags| :: tags[i].name
  }

  /** `posts`: ids from `increments` (ascending, below the next id), a unique
      slug, and a `file_path` unique among the rows that have one. */
  predicate PostsTable(posts: seq<Post>, next: Id) {
    && (forall i, j :: 0 <= i < j < |posts| ==> posts[i].id < posts[j].id)
    && (forall i :: 0 <= i < |posts| ==> posts[i].id < next)
    && (forall i, j :: 0 <= i < j < |posts| ==> posts[i].slug != posts[j].slug)
    && (forall i, j :: 0 <= i < j < |posts| && posts[i].filePath.Some? ==> posts[i].filePath != posts[j].filePath)
  }

  /** `tags`: ascending ids below the next id and a unique name. */
  predicate TagsTable(tags: seq<Tag>, next: Id) {
    && (forall i, j :: 0 <= i < j < |tags| ==> tags[i].id < tags[j].id)
    && (forall i :: 0 <= i < |tags| ==> tags[i].id < next)
    && (forall i, j :: 0 <= i < j < |tags| ==> tags[i].name != tags[j].name)
  }

  /** `post_tags`: both columns reference existing rows. */
  predicate LinksTable(links: set<Link>, posts: seq<Post>, tags: seq<Tag>) {
    forall l :: l in links ==> l.postId in PostIds(posts) && l.tagId in TagIds(tags)
  }

  /** `images`: ascending ids below the next id; a non-null `post_id` references a post. */
  predicate ImagesTable(images: seq<Image>, posts: seq<Post>, next: Id) {
    && ImageIdsAscend(images)
    && (forall i :: 0 <= i < |images| ==> images[i].id < next)
    && (forall i :: 0 <= i < |images| && images[i].postId.Some? ==> images[i].postId.value in PostIds(posts))
  }

  predicate ImageIdsAscend(images: seq<Image>) {
    forall i, j :: 0 <= i < j < |images| ==> images[i].id < images[j].id
  }

  /** Every constraint of the schema at once. */
  predicate Consistent(posts: seq<Post>, tags: seq<Tag>, links: set<Link>, images: seq<Image>,
                       nextPost: Id, nextTag: Id, nextImage: Id) {
    && PostsTable(posts, nextPost)
    && TagsTable(tags, nextTag)
    && LinksTable(links, posts, tags)
    && ImagesTable(images, posts, nextImage)
  }

  /** A unique (ascending) id picks out one row. */
  lemma PostIdUnique(posts: seq<Post>, next: Id, i: int, j: int)
    requires PostsTable(posts, next)
    requires 0 <= i < |posts| && 0 <= j < |posts| && posts[i].id == posts[j].id
    ensures i == j
  {
  }

  // ----- cascading deletes -----

  /** `post_tags.post_id ... onDelete('CASCADE')`: the links of a removed post go with it. */
  function LinksWithoutPost(links: set<Link>, id: Id): (r: set<Link>)
    ensures forall l :: l in r <==> l in links && l.postId != id
  {
    set l | l in links && l.postId != id
  }

  /** `post_tags.tag_id ... onDelete('CASCADE')`: the links of a removed tag go with it. */
  function LinksWithoutTag(links: set<Link>, id: Id): (r: set<Link>)
    ensures forall l :: l in r <==> l in links && l.tagId != id
  {
    set l | l in links && l.tagId != id
  }

  /** `images.post_id ... onDelete('CASCADE')`: the images of a removed post go with it. */
  function ImagesWithoutPost(images: seq<Image>, id: Id): (r: seq<Image>)
    ensures |r| <= |images|
    ensures forall x :: x in r <==> x in images && x.postId != Some(id)
    decreases |images|
  {
    if images == [] then []
    else
      var rest := ImagesWithoutPost(images[..|images| - 1], id);
      var last := images[|images| - 1];
      assert images == images[..|images| - 1] + [last];
      if last.postId == Some(id) then rest else rest + [last]
  }

  /** The images left after a cascade keep their order, so their ids still ascend. */
  lemma {:induction false} ImagesWithoutPostAscend(images: seq<Image>, id: Id)
    requires ImageIdsAscend(images)
    ensures ImageIdsAscend(ImagesWithoutPost(images, id))
    decreases |images|
  {
    if images != [] {
      var pre := images[..|images| - 1];
      var last := images[|images| - 1];
      assert ImageIdsAscend(pre) by {
        assert forall k :: 0 <= k < |pre| ==> pre[k] == images[k];
      }
      ImagesWithoutPostAscend(pre, id);
      var rest := ImagesWithoutPost(pre, id);
      if last.postId != Some(id) {
        forall k | 0 <= k < |rest| ensures rest[k].id < last.id {
          assert rest[k] in pre;
          var m :| 0 <= m < |pre| && pre[m] == rest[k];
          assert images[m] == rest[k];
        }
        assert ImagesWithoutPost(images, id) == rest + [last];
        AppendAscends(rest, last);
      }
    }
  }

  lemma AppendAscends(rest: seq<Image>, last: Image)
    requires ImageIdsAscend(rest)
    requires forall k :: 0 <= k < |rest| ==> rest[k].id < last.id
    ensures ImageIdsAscend(rest + [last])
  {
    var r := rest + [last];
    forall i, j | 0 <= i < j < |r| ensures r[i].id < r[j].id {
      assert r[i] == rest[i];
      if j < |rest| {
        assert r[j] == rest[j];
      }
    }
  }

  /** Without the row at `k` the posts still satisfy their constraints. */
  lemma RemovePostTable(posts: seq<Post>, next: Id, k: int)
    requires PostsTable(posts, next) && 0 <= k < |posts|
    ensures PostsTable(posts[..k] + posts[k + 1..], next)
  {
    var rest := posts[..k] + posts[k + 1..];
    assert forall i :: 0 <= i < |rest| ==> rest[i] == posts[if i < k then i else i + 1];
  }

  /** The ids other than the removed row's are still there. */
  lemma RemovePostIds(posts: seq<Post>, k: int)
    requires 0 <= k < |posts|
    ensures forall p :: p in PostIds(posts) && p != posts[k].id ==> p in PostIds(posts[..k] + posts[k + 1..])
  {
    var rest := posts[..k] + posts[k + 1..];
    forall p | p in PostIds(posts) && p != posts[k].id ensures p in PostIds(rest) {
      var i :| 0 <= i < |posts| && posts[i].id == p;
      assert rest[if i < k then i else i - 1] == posts[i];
    }
  }

  /** Removing post `k` together with its links and images keeps every constraint. */
  lemma DeletePostConsistent(posts: seq<Post>, tags: seq<Tag>, links: set<Link>, images: seq<Image>,
                             nextPost: Id, nextTag: Id, nextImage: Id, k: int)
    requires Consistent(posts, tags, links, images, nextPost, nextTag, nextImage)
    requires 0 <= k < |posts|
    ensures var id := posts[k].id;
      Consistent(posts[..k] + posts[k + 1..], tags, LinksWithoutPost(links, id), ImagesWithoutPost(images, id),
                 nextPost, nextTag, nextImage)
  {
    var id := posts[k].id;
    var rest := posts[..k] + posts[k + 1..];
    RemovePostTable(posts, nextPost, k);
    RemovePostIds(posts, k);
    ImagesWithoutPostAscend(images, id);
    var kept := ImagesWithoutPost(images, id);
    assert ImagesTable(kept, rest, nextImage) by {
      forall i | 0 <= i < |kept| ensures kept[i].id < nextImage && (kept[i].postId.Some? ==> kept[i].postId.value in PostIds(rest)) {
        assert kept[i] in images;
        var m :| 0 <= m < |images| && images[m] == kept[i];
      }
    }
  }

  /** Removing tag `k` together with its links keeps every constraint. */
  lemma DeleteTagConsistent(posts: seq<Post>, tags: seq<Tag>, links: set<Link>, images: seq<Image>,
                            nextPost: Id, nextTag: Id, nextImage: Id, k: int)
    requires Consistent(posts, tags, links, images, nextPost, nextTag, nextImage)
    requires 0 <= k < |tags|
    ensures Consistent(posts, tags[..k] + tags[k + 1..], LinksWithoutTag(links, tags[k].id), images,
                       nextPost, nextTag, nextImage)
  {
    var id := tags[k].id;
    var rest := tags[..k] + tags[k + 1..];
    assert forall i :: 0 <= i < |rest| ==> rest[i] == tags[if i < k then i else i + 1];
    forall t | t in TagIds(tags) && t != id ensures t in TagIds(rest) {
      var i :| 0 <= i < |tags| && tags[i].id == t;
      assert i != k;
      assert rest[if i < k then i else i - 1] == tags[i];
    }
  }

  // ----- creating and dropping the tables -----

  datatype Table = Posts | Tags | PostTags | Images

  /** The foreign keys: `post_tags` references `posts` and `tags`, `images` references `posts`. */
  predicate References(from: Table, to: Table) {
    (from == PostTags && (to == Posts || to == Tags)) || (from == Images && to == Posts)
  }

  /** The order of `up`'s `createTable` calls. */
  const CreateOrder: seq<Table> := [Posts, Tags, PostTags, Images]

  /** The order of `down`'s `dropTableIfExists` calls. */
  const DropOrder: seq<Table> := [Images, PostTags, Tags, Posts]

  /** `up` creates a table after every table it references; `down` drops a
      table before every table it references, in exactly the reverse order. */
  lemma MigrationOrder()
    ensures forall i, j :: (0 <= i < |CreateOrder| && 0 <= j < |CreateOrder|
      && References(CreateOrder[j], CreateOrder[i])) ==> i < j
    ensures forall i, j :: (0 <= i < |DropOrder| && 0 <= j < |DropOrder|
      && References(DropOrder[j], DropOrder[i])) ==> j < i
    ensures |DropOrder| == |CreateOrder|
      && forall k :: 0 <= k < |DropOrder| ==> DropOrder[k] == CreateOrder[|CreateOrder| - 1 - k]
  {
  }
}
