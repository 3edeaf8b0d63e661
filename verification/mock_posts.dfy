/** The in-memory post table behind the admin API: a module-level list of
    posts that the API mutates in place. Timestamps are milliseconds since the
    epoch; the clock reading and the new id are parameters. */
module MockPosts {
  import opened Wrappers
  import opened Lists
  import opened PostStatus

  datatype Post = Post(
    id: string,
    title: string,
    slug: string,
    excerpt: string,
    content: string,
    status: Status,
    featured: bool,
    viewCount: int,
    authorId: string,
    authorName: string,
    publishedAt: Option<int>,
    createdAt: int,
    updatedAt: int,
    seoTitle: string,
    seoDescription: string,
    tags: seq<string>)

  /** What a caller supplies to create a post: everything but the id, the
      timestamps, the view count and the author. */
  datatype PostInput = PostInput(
    title: string,
    slug: string,
    excerpt: string,
    content: string,
    status: Status,
    featured: bool,
    publishedAt: Option<int>,
    seoTitle: string,
    seoDescription: string,
    tags: seq<string>)

  /** A partial post: the fields present override, the absent ones keep
      their value. */
  datatype PostUpdates = PostUpdates(
    id: Option<string>,
    title: Option<string>,
    slug: Option<string>,
    excerpt: Option<string>,
    content: Option<string>,
    status: Option<Status>,
    featured: Option<bool>,
    viewCount: Option<int>,
    authorId: Option<string>,
    authorName: Option<string>,
    publishedAt: Option<Option<int>>,
    createdAt: Option<int>,
    seoTitle: Option<string>,
    seoDescription: Option<string>,
    tags: Option<seq<string>>)

  function NoUpdates(): PostUpdates {
    PostUpdates(None, None, None, None, None, None, None, None, None, None, None, None, None, None, None)
  }

  /** The single author every post is attributed to. */
  const AuthorId: string := "admin-1"
  const AuthorName: string := "Admin User"

  const Day: int := 86400000

  const WelcomeContent: string :=
    "# Welcome to Your Blog Admin\n\nThis is your first blog post! You can now:\n\n"
    + "- ✅ Create new posts\n- ✅ Edit existing posts  \n- ✅ Manage drafts and published content\n"
    + "- ✅ Add tags and SEO optimization\n- ✅ Feature important posts\n\n"
    + "Start writing amazing content for your blog!\n\n## Getting Started\n\n"
    + "1. Click \"New Post\" to create content\n2. Use the editor to write your posts\n"
    + "3. Set SEO titles and descriptions\n4. Publish when ready\n\nHappy blogging! 🚀"

  const GuideContent: string :=
    "# How to Write Great Blog Posts\n\nWriting great blog posts is an art and a science...\n\n"
    + "## Key Tips\n\n1. **Start with a compelling headline**\n2. **Write for your audience**\n"
    + "3. **Use clear structure**\n4. **Add value**\n5. **Include a call-to-action**\n\n"
    + "More content coming soon!"

  const WelcomeExcerpt: string :=
    "This is your first blog post created through the admin panel. You can edit, delete, or create new posts."
  const WelcomeSeoDescription: string :=
    "Learn how to use your new blog admin panel to create and manage content."
  const GuideExcerpt: string :=
    "Learn the secrets of writing engaging blog posts that your readers will love."
  const GuideSeoDescription: string :=
    "Master the art of blog writing with these proven tips and strategies."

  /** The welcome post: published and featured, with 42 views. */
  function WelcomePost(now: int): Post {
    Post("1", "Welcome to Your Blog Admin", "welcome-to-blog-admin", WelcomeExcerpt,
         WelcomeContent, Published, true, 42, AuthorId, AuthorName, Some(now), now, now,
         "Welcome to Your Blog Admin - Get Started", WelcomeSeoDescription,
         ["welcome", "admin", "getting-started"])
  }

  /** The writing guide: a draft created a day earlier, with 15 views. */
  function GuidePost(now: int): Post {
    Post("2", "How to Write Great Blog Posts", "how-to-write-great-blog-posts", GuideExcerpt,
         GuideContent, Draft, false, 15, AuthorId, AuthorName, None, now - Day, now,
         "How to Write Great Blog Posts - Writing Guide", GuideSeoDescription,
         ["writing", "blogging", "tips"])
  }

  /** The two posts the table starts with. */
  function Seed(now: int): (r: seq<Post>)
    ensures |r| == 2
  {
    [WelcomePost(now), GuidePost(now)]
  }

  function UpdatedAt(p: Post): int {
    p.updatedAt
  }

  function HasId(id: string): Post -> bool {
    (p: Post) => p.id == id
  }

  /** No id occurs twice. */
  predicate UniqueIds(ps: seq<Post>) {
    forall i, j :: 0 <= i < j < |ps| ==> ps[i].id != ps[j].id
  }

  /** The seed has distinct ids, and both posts were last updated at the same
      instant. */
  lemma SeedFacts(now: int)
    ensures UniqueIds(Seed(now))
    ensures forall i :: 0 <= i < |Seed(now)| ==> Seed(now)[i].updatedAt == now
  {
  }

  /** Sorting the seed newest-first keeps its order. */
  lemma SeedOrderKept(now: int)
    ensures SortDesc(Seed(now), UpdatedAt) == Seed(now)
  {
    SeedFacts(now);
    SortDescSameKey(Seed(now), UpdatedAt, now);
  }

  /** The position of the first post with this id, or -1. */
  function Position(ps: seq<Post>, id: string): (k: int)
    ensures -1 <= k < |ps|
    ensures k == -1 <==> forall i :: 0 <= i < |ps| ==> ps[i].id != id
    ensures k >= 0 ==> ps[k].id == id && forall i :: 0 <= i < k ==> ps[i].id != id
  {
    FirstIndex(ps, HasId(id))
  }

  /** The first post with the given id, or nothing. */
  function FindById(ps: seq<Post>, id: string): (r: Option<Post>)
    ensures r.None? <==> forall i :: 0 <= i < |ps| ==> ps[i].id != id
    ensures r.Some? ==> r.value.id == id && r.value == ps[Position(ps, id)]
  {
    var k := Position(ps, id);
    if k == -1 then None else Some(ps[k])
  }

  /** A new post copies the input and adds the id, a zero view count, the
      admin author and the creation time. */
  function NewPost(input: PostInput, id: string, now: int): (r: Post)
    ensures r.id == id && r.viewCount == 0 && r.createdAt == now && r.updatedAt == now
    ensures r.authorId == "admin-1" && r.authorName == "Admin User"
    ensures r.title == input.title && r.slug == input.slug && r.excerpt == input.excerpt
    ensures r.content == input.content && r.status == input.status && r.featured == input.featured
    ensures r.publishedAt == input.publishedAt && r.seoTitle == input.seoTitle
    ensures r.seoDescription == input.seoDescription && r.tags == input.tags
  {
    Post(id, input.title, input.slug, input.excerpt, input.content, input.status, input.featured,
         0, AuthorId, AuthorName, input.publishedAt, now, now, input.seoTitle, input.seoDescription, input.tags)
  }

  /** `{ ...p, ...u, updatedAt: now }`: each field present in the updates
      overrides, each absent one is kept, and `updatedAt` is the clock. */
  function Merge(p: Post, u: PostUpdates, now: int): (r: Post)
    ensures r.id == u.id.GetOr(p.id) && r.title == u.title.GetOr(p.title)
    ensures r.slug == u.slug.GetOr(p.slug) && r.excerpt == u.excerpt.GetOr(p.excerpt)
    ensures r.content == u.content.GetOr(p.content) && r.status == u.status.GetOr(p.status)
    ensures r.featured == u.featured.GetOr(p.featured) && r.viewCount == u.viewCount.GetOr(p.viewCount)
    ensures r.authorId == u.authorId.GetOr(p.authorId) && r.authorName == u.authorName.GetOr(p.authorName)
    ensures r.publishedAt == u.publishedAt.GetOr(p.publishedAt) && r.createdAt == u.createdAt.GetOr(p.createdAt)
    ensures r.seoTitle == u.seoTitle.GetOr(p.seoTitle) && r.seoDescription == u.seoDescription.GetOr(p.seoDescription)
    ensures r.tags == u.tags.GetOr(p.tags)
    ensures r.updatedAt == now
  {
    Post(u.id.GetOr(p.id), u.title.GetOr(p.title), u.slug.GetOr(p.slug), u.excerpt.GetOr(p.excerpt),
         u.content.GetOr(p.content), u.status.GetOr(p.status), u.featured.GetOr(p.featured),
         u.viewCount.GetOr(p.viewCount), u.authorId.GetOr(p.authorId), u.authorName.GetOr(p.authorName),
         u.publishedAt.GetOr(p.publishedAt), u.createdAt.GetOr(p.createdAt), now,
         u.seoTitle.GetOr(p.seoTitle), u.seoDescription.GetOr(p.seoDescription), u.tags.GetOr(p.tags))
  }

  /** Merging no updates only refreshes the timestamp. */
  lemma MergeNothing(p: Post, now: int)
    ensures Merge(p, NoUpdates(), now) == p.(updatedAt := now)
  {
  }

  /** Merging the same updates twice is merging them once. */
  lemma MergeIdempotent(p: Post, u: PostUpdates, now: int)
    ensures Merge(Merge(p, u, now), u, now) == Merge(p, u, now)
  {
  }

  /** The table after `updatePost`: only the first post with the id is
      replaced, by its merge with the updates. */
  function Updated(ps: seq<Post>, id: string, u: PostUpdates, now: int): (r: seq<Post>)
    ensures |r| == |ps|
    ensures Position(ps, id) == -1 ==> r == ps
    ensures Position(ps, id) >= 0 ==> r[Position(ps, id)] == Merge(ps[Position(ps, id)], u, now)
    ensures forall i :: 0 <= i < |ps| && i != Position(ps, id) ==> r[i] == ps[i]
  {
    var k := Position(ps, id);
    if k == -1 then ps else ps[k := Merge(ps[k], u, now)]
  }

  /** After an update that keeps the id, looking the id up finds the merged
      post. */
  lemma UpdatedThenFound(ps: seq<Post>, id: string, u: PostUpdates, now: int)
    requires Position(ps, id) >= 0 && u.id.None?
    ensures FindById(Updated(ps, id, u, now), id) == Some(Merge(ps[Position(ps, id)], u, now))
  {
    var k := Position(ps, id);
    var r := Updated(ps, id, u, now);
    assert r[k].id == id;
    assert forall i :: 0 <= i < k ==> r[i].id != id;
  }

  /** The table after `deletePost`: the first post with the id is gone, the
      others keep their order. */
  function Removed(ps: seq<Post>, id: string): (r: seq<Post>)
    ensures Position(ps, id) == -1 ==> r == ps
    ensures Position(ps, id) >= 0 ==> r == ps[..Position(ps, id)] + ps[Position(ps, id) + 1..]
  {
    var k := Position(ps, id);
    if k == -1 then ps else RemoveAt(ps, k)
  }

  /** In a table with unique ids, a deleted id can no longer be found. */
  lemma RemovedIsGone(ps: seq<Post>, id: string)
    requires UniqueIds(ps)
    ensures FindById(Removed(ps, id), id).None?
  {
    var k := Position(ps, id);
    if k >= 0 {
      var r := Removed(ps, id);
      forall i | 0 <= i < |r| ensures r[i].id != id {
        if i < k { assert r[i] == ps[i]; } else { assert r[i] == ps[i + 1]; }
      }
    }
  }

  /** Deleting one id leaves every other post to be found as before. */
  lemma RemovedKeepsOthers(ps: seq<Post>, id: string, other: string)
    requires other != id
    ensures FindById(Removed(ps, id), other) == FindById(ps, other)
  {
    var k := Position(ps, id);
    if k >= 0 {
      var r := RemoveAt(ps, k);
      assert Removed(ps, id) == r;
      FirstIndexAfterRemoveAt(ps, k, HasId(other));
      var j := Position(ps, other);
      assert Position(r, other) == (if j == -1 then -1 else if j < k then j else j - 1);
      if j >= 0 {
        if j < k { assert r[j] == ps[j]; } else { assert r[j - 1] == ps[j]; }
      }
    }
  }

  /** Appending a post under a fresh id keeps the ids unique, and the new
      post is found under its id. */
  lemma AppendedIsFound(ps: seq<Post>, p: Post)
    requires forall i :: 0 <= i < |ps| ==> ps[i].id != p.id
    ensures FindById(ps + [p], p.id) == Some(p)
    ensures UniqueIds(ps) ==> UniqueIds(ps + [p])
  {
    var r := ps + [p];
    assert r[|ps|] == p;
    assert forall i :: 0 <= i < |ps| ==> r[i] == ps[i];
  }

  /** The module-level table. */
  class Store {
    var posts: seq<Post>

    /** The table as the module loads it. */
    constructor (now: int)
      ensures posts == Seed(now)
    {
      posts := Seed(now);
    }

    /** `getAllPosts`: sorts the table itself newest-first (stably) and hands
        it back. */
    method GetAll() returns (r: seq<Post>)
      modifies this
      ensures posts == SortDesc(old(posts), UpdatedAt) && r == posts
      ensures SortedDesc(r, UpdatedAt)
      ensures multiset(r) == multiset(old(posts))
      ensures forall t :: Filter(r, KeyIs(UpdatedAt, t)) == Filter(old(posts), KeyIs(UpdatedAt, t))
    {
      SortDescSorted(posts, UpdatedAt);
      SortDescPermutation(posts, UpdatedAt);
      forall t ensures Filter(SortDesc(posts, UpdatedAt), KeyIs(UpdatedAt, t)) == Filter(posts, KeyIs(UpdatedAt, t)) {
        SortDescStable(posts, UpdatedAt, t);
      }
      posts := SortDesc(posts, UpdatedAt);
      r := posts;
    }

    /** `getPostById`. */
    function GetById(id: string): (r: Option<Post>)
      reads this
      ensures r.None? <==> forall i :: 0 <= i < |posts| ==> posts[i].id != id
      ensures r.Some? ==> r.value.id == id && r.value in posts
      ensures r.Some? ==> r.value == posts[Position(posts, id)]
    {
      FindById(posts, id)
    }

    /** `createPost`: appends the new post; the others stay where they
        were, unchanged. */
    method Create(input: PostInput, id: string, now: int) returns (p: Post)
      modifies this
      ensures p == NewPost(input, id, now)
      ensures posts == old(posts) + [p]
      ensures (forall i :: 0 <= i < |old(posts)| ==> old(posts)[i].id != id) ==> FindById(posts, id) == Some(p)
    {
      p := NewPost(input, id, now);
      if forall i :: 0 <= i < |posts| ==> posts[i].id != id {
        AppendedIsFound(posts, p);
      }
      posts := posts + [p];
    }

    /** `updatePost`: `null` for an unknown id. */
    method Update(id: string, updates: PostUpdates, now: int) returns (r: Option<Post>)
      modifies this
      ensures posts == Updated(old(posts), id, updates, now)
      ensures Position(old(posts), id) == -1 ==> r.None?
      ensures Position(old(posts), id) >= 0 ==> r == Some(posts[Position(old(posts), id)])
    {
      var k := Position(posts, id);
      if k == -1 {
        return None;
      }
      posts := posts[k := Merge(posts[k], updates, now)];
      r := Some(posts[k]);
    }

    /** `deletePost`: `true` exactly when a post had the id. */
    method Delete(id: string) returns (deleted: bool)
      modifies this
      ensures posts == Removed(old(posts), id)
      ensures deleted <==> exists i :: 0 <= i < |old(posts)| && old(posts)[i].id == id
      ensures deleted ==> |posts| == |old(posts)| - 1
    {
      var k := Position(posts, id);
      if k == -1 {
        return false;
      }
      posts := RemoveAt(posts, k);
      deleted := true;
    }
  }
}
