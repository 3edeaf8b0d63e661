/** The post editor form: the post record it holds, the three effects that
    fill the slug, the SEO title and the excerpt from other fields, the tag
    list, and the request that saving sends. */
module PostEditor {
  import opened Wrappers
  import opened Lists
  import opened Slug
  import opened Markup
  import opened PostStatus

  /** The post the form holds. The optional fields are absent in a new post
      and present in one loaded from the server. */
  datatype Post = Post(
    id: Option<string>,
    title: string,
    slug: string,
    excerpt: string,
    content: string,
    status: Status,
    featured: bool,
    coverImage: Option<string>,
    seoTitle: string,
    seoDescription: string,
    tags: seq<string>,
    publishedAt: Option<string>,
    readingTime: Option<int>)

  /** The form of a new post. */
  function EmptyPost(): Post {
    Post(None, "", "", "", "", Draft, false, None, "", "", [], None, None)
  }

  /** The slug effect: while a post is being created, a non-empty title
      sets the slug to its slug; nothing else changes. */
  function SlugEffect(p: Post, editing: bool): (r: Post)
    ensures r.(slug := p.slug) == p
    ensures !editing && p.title != "" ==> r.slug == Slugify(p.title) && IsSlug(r.slug)
    ensures editing || p.title == "" ==> r == p
  {
    if !editing && p.title != "" then
      SlugifyIsSlug(p.title);
      p.(slug := Slugify(p.title))
    else p
  }

  /** The SEO-title effect: an empty SEO title takes a non-empty title. */
  function SeoTitleEffect(p: Post): (r: Post)
    ensures r.(seoTitle := p.seoTitle) == p
    ensures p.title != "" ==> r.seoTitle != ""
    ensures p.seoTitle != "" || p.title == "" ==> r == p
    ensures r != p ==> r.seoTitle == p.title
  {
    if p.title != "" && p.seoTitle == "" then p.(seoTitle := p.title) else p
  }

  /** The excerpt effect: an empty excerpt of non-empty content takes the
      excerpt of the content. */
  function ExcerptEffect(p: Post): (r: Post)
    ensures r.(excerpt := p.excerpt) == p
    ensures p.content != "" ==> r.excerpt != ""
    ensures p.excerpt != "" || p.content == "" ==> r == p
    ensures r != p ==> r.excerpt == Excerpt(p.content) && |r.excerpt| <= 163
  {
    if p.content != "" && p.excerpt == "" then p.(excerpt := Excerpt(p.content)) else p
  }

  /** The derived fields agree with the fields they come from: a titled post
      has an SEO title and a post with content has an excerpt. */
  predicate Filled(p: Post) {
    (p.title != "" ==> p.seoTitle != "") && (p.content != "" ==> p.excerpt != "")
  }

  /** What the form holds once the effects whose dependencies changed between
      the render of `prev` and the render of `next` have run. The slug effect
      depends on the title, the SEO-title effect on the title and the SEO
      title, the excerpt effect on the content and the excerpt. */
  function Settle(prev: Post, next: Post, editing: bool): (r: Post)
    ensures r.(slug := next.slug, seoTitle := next.seoTitle, excerpt := next.excerpt) == next
    ensures Filled(prev) ==> Filled(r)
    ensures editing || next.title == prev.title || next.title == "" ==> r.slug == next.slug
    ensures !editing && next.title != prev.title && next.title != "" ==> r.slug == Slugify(next.title)
    ensures next.seoTitle != "" ==> r.seoTitle == next.seoTitle
    ensures next.excerpt != "" ==> r.excerpt == next.excerpt
  {
    var a := if next.title != prev.title then SlugEffect(next, editing) else next;
    var b := if next.title != prev.title || next.seoTitle != prev.seoTitle then SeoTitleEffect(a) else a;
    if next.content != prev.content || next.excerpt != prev.excerpt then ExcerptEffect(b) else b
  }

  /** The render that follows the effects runs them once more, and they
      change nothing: the form is settled after one round. */
  lemma SettleIsFinal(prev: Post, next: Post, editing: bool)
    ensures Settle(next, Settle(prev, next, editing), editing) == Settle(prev, next, editing)
  {
  }

  /** `tags.includes(t)` is false and `t` non-empty: append it. */
  function WithTag(tags: seq<string>, t: string): (r: seq<string>)
    ensures forall x :: x in r <==> x in tags || (x == t && t != "")
    ensures |tags| <= |r| <= |tags| + 1 && r[..|tags|] == tags
    ensures Distinct(tags) ==> Distinct(r)
    ensures t == "" || t in tags ==> r == tags
  {
    if t != "" && t !in tags then tags + [t] else tags
  }

  function IsNot(t: string): string -> bool {
    x => x != t
  }

  /** `tags.filter(tag => tag !== t)`. */
  function WithoutTag(tags: seq<string>, t: string): (r: seq<string>)
    ensures forall x :: x in r <==> x in tags && x != t
    ensures Distinct(tags) ==> Distinct(r)
  {
    FilterDistinctIfDistinct(tags, IsNot(t));
    forall x ensures x in Filter(tags, IsNot(t)) <==> x in tags && x != t {
      FilterMembership(tags, IsNot(t), x);
    }
    Filter(tags, IsNot(t))
  }

  lemma FilterDistinctIfDistinct<T>(s: seq<T>, p: T -> bool)
    ensures Distinct(s) ==> Distinct(Filter(s, p))
  {
    if Distinct(s) {
      FilterDistinct(s, p);
    }
  }

  /** Removing a tag that was just added gives back the list. */
  lemma RemoveAddedTag(tags: seq<string>, t: string)
    requires t != "" && t !in tags
    ensures WithoutTag(WithTag(tags, t), t) == tags
  {
    FilterConcat(tags, [t], IsNot(t));
    FilterAll(tags, IsNot(t));
    assert Filter([t], IsNot(t)) == [];
  }

  /** Removing a tag keeps the other tags in their order: it is the tags of
      any split of the list, each without the removed tag. */
  lemma RemoveTagKeepsOrder(a: seq<string>, b: seq<string>, t: string)
    ensures WithoutTag(a + b, t) == WithoutTag(a, t) + WithoutTag(b, t)
  {
    FilterConcat(a, b, IsNot(t));
  }

  /** One change the user or the server makes to the form's post. */
  datatype Edit =
    | SetTitle(title: string)
    | SetSlug(slug: string)
    | SetExcerpt(excerpt: string)
    | SetContent(content: string)
    | SetSeoTitle(seoTitle: string)
    | SetSeoDescription(seoDescription: string)
    | SetStatus(status: Status)
    | SetFeatured(featured: bool)
    | RemoveCover
    | ChooseCover(answer: Option<string>)
    | AddTag(tag: string)
    | RemoveTag(tag: string)
    | Replace(post: Post)

  /** The post an edit renders next, before the effects run. A cover image
      is set only from a non-empty answer to the prompt; removing it leaves
      an empty string. Each field edit changes only its own field, and only a
      whole-post replacement can bring in repeated tags. */
  function Apply(p: Post, e: Edit): (r: Post)
    ensures !e.SetSeoTitle? && !e.Replace? ==> r.seoTitle == p.seoTitle
    ensures !e.SetExcerpt? && !e.Replace? ==> r.excerpt == p.excerpt
    ensures !e.SetSlug? && !e.Replace? ==> r.slug == p.slug
    ensures !e.SetTitle? && !e.Replace? ==> r.title == p.title
    ensures !e.SetContent? && !e.Replace? ==> r.content == p.content
    ensures !e.Replace? && Distinct(p.tags) ==> Distinct(r.tags)
    ensures e.SetTitle? ==> r.(title := p.title) == p && r.title == e.title
    ensures e.SetSlug? ==> r.(slug := p.slug) == p && r.slug == e.slug
    ensures e.SetExcerpt? ==> r.(excerpt := p.excerpt) == p && r.excerpt == e.excerpt
    ensures e.SetContent? ==> r.(content := p.content) == p && r.content == e.content
    ensures e.SetSeoTitle? ==> r.(seoTitle := p.seoTitle) == p && r.seoTitle == e.seoTitle
    ensures e.SetSeoDescription? ==>
      r.(seoDescription := p.seoDescription) == p && r.seoDescription == e.seoDescription
    ensures e.SetStatus? ==> r.(status := p.status) == p && r.status == e.status
    ensures e.SetFeatured? ==> r.(featured := p.featured) == p && r.featured == e.featured
    ensures e.RemoveCover? ==> r.(coverImage := p.coverImage) == p && r.coverImage == Some("")
    ensures e.ChooseCover? ==> r.(coverImage := p.coverImage) == p
    ensures e.ChooseCover? && e.answer.Some? && e.answer.value != "" ==> r.coverImage == e.answer
    ensures e.ChooseCover? && (e.answer.None? || e.answer.value == "") ==> r == p
    ensures e.AddTag? ==> r.(tags := p.tags) == p && r.tags == WithTag(p.tags, e.tag)
    ensures e.RemoveTag? ==> r.(tags := p.tags) == p && r.tags == WithoutTag(p.tags, e.tag)
    ensures e.Replace? ==> r == e.post
  {
    match e
    case SetTitle(v) => p.(title := v)
    case SetSlug(v) => p.(slug := v)
    case SetExcerpt(v) => p.(excerpt := v)
    case SetContent(v) => p.(content := v)
    case SetSeoTitle(v) => p.(seoTitle := v)
    case SetSeoDescription(v) => p.(seoDescription := v)
    case SetStatus(s) => p.(status := s)
    case SetFeatured(b) => p.(featured := b)
    case RemoveCover => p.(coverImage := Some(""))
    case ChooseCover(answer) =>
      if answer.Some? && answer.value != "" then p.(coverImage := Some(answer.value)) else p
    case AddTag(t) => p.(tags := WithTag(p.tags, t))
    case RemoveTag(t) => p.(tags := WithoutTag(p.tags, t))
    case Replace(q) => q
  }

  /** An edit followed by its effects. */
  function Step(p: Post, e: Edit, editing: bool): (r: Post)
    ensures Filled(p) ==> Filled(r)
  {
    Settle(p, Apply(p, e), editing)
  }

  /** Adding or removing a tag changes none of the fields the effects
      depend on, so no effect runs. */
  lemma TagEditSettles(p: Post, e: Edit, editing: bool)
    requires e.AddTag? || e.RemoveTag?
    ensures Step(p, e, editing) == p.(tags := Apply(p, e).tags)
  {
  }

  /** A series of edits, each followed by its effects. */
  function Replay(p: Post, edits: seq<Edit>, editing: bool): Post
    decreases |edits|
  {
    if edits == [] then p else Replay(Step(p, edits[0], editing), edits[1..], editing)
  }

  /** No edit writes the SEO title directly. */
  predicate KeepsSeoTitle(edits: seq<Edit>) {
    forall i :: 0 <= i < |edits| ==> !edits[i].SetSeoTitle? && !edits[i].Replace?
  }

  /** A non-empty SEO title survives every edit but its own: later title
      changes never touch it. */
  lemma {:induction false} SeoTitleSticks(p: Post, edits: seq<Edit>, editing: bool)
    requires p.seoTitle != "" && KeepsSeoTitle(edits)
    ensures Replay(p, edits, editing).seoTitle == p.seoTitle
    decreases |edits|
  {
    if edits != [] {
      var q := Step(p, edits[0], editing);
      assert KeepsSeoTitle(edits[1..]) by {
        forall i | 0 <= i < |edits[1..]| ensures !edits[1..][i].SetSeoTitle? && !edits[1..][i].Replace? {
          assert edits[1..][i] == edits[i + 1];
        }
      }
      SeoTitleSticks(q, edits[1..], editing);
    }
  }

  /** No edit writes the excerpt directly. */
  predicate KeepsExcerpt(edits: seq<Edit>) {
    forall i :: 0 <= i < |edits| ==> !edits[i].SetExcerpt? && !edits[i].Replace?
  }

  /** A non-empty excerpt survives every edit but its own: later content
      changes never regenerate it. */
  lemma {:induction false} ExcerptSticks(p: Post, edits: seq<Edit>, editing: bool)
    requires p.excerpt != "" && KeepsExcerpt(edits)
    ensures Replay(p, edits, editing).excerpt == p.excerpt
    decreases |edits|
  {
    if edits != [] {
      var q := Step(p, edits[0], editing);
      assert KeepsExcerpt(edits[1..]) by {
        forall i | 0 <= i < |edits[1..]| ensures !edits[1..][i].SetExcerpt? && !edits[1..][i].Replace? {
          assert edits[1..][i] == edits[i + 1];
        }
      }
      ExcerptSticks(q, edits[1..], editing);
    }
  }

  /** No edit writes the slug directly. */
  predicate KeepsSlug(edits: seq<Edit>) {
    forall i :: 0 <= i < |edits| ==> !edits[i].SetSlug? && !edits[i].Replace?
  }

  /** While a stored post is being edited its slug changes only when the
      user edits it: title changes never regenerate it. */
  lemma {:induction false} SlugSticksWhileEditing(p: Post, edits: seq<Edit>)
    requires KeepsSlug(edits)
    ensures Replay(p, edits, true).slug == p.slug
    decreases |edits|
  {
    if edits != [] {
      var q := Step(p, edits[0], true);
      assert KeepsSlug(edits[1..]) by {
        forall i | 0 <= i < |edits[1..]| ensures !edits[1..][i].SetSlug? && !edits[1..][i].Replace? {
          assert edits[1..][i] == edits[i + 1];
        }
      }
      SlugSticksWhileEditing(q, edits[1..]);
    }
  }

  /** No edit replaces the whole post. */
  predicate KeepsPost(edits: seq<Edit>) {
    forall i :: 0 <= i < |edits| ==> !edits[i].Replace?
  }

  /** Adding and removing tags never creates a repeated tag. */
  lemma {:induction false} TagsStayDistinct(p: Post, edits: seq<Edit>, editing: bool)
    requires Distinct(p.tags) && KeepsPost(edits)
    ensures Distinct(Replay(p, edits, editing).tags)
    decreases |edits|
  {
    if edits != [] {
      var q := Step(p, edits[0], editing);
      assert KeepsPost(edits[1..]) by {
        forall i | 0 <= i < |edits[1..]| ensures !edits[1..][i].Replace? {
          assert edits[1..][i] == edits[i + 1];
        }
      }
      TagsStayDistinct(q, edits[1..], editing);
    }
  }

  /** Whatever the edits, a titled post keeps an SEO title and a post with
      content keeps an excerpt. */
  lemma {:induction false} ReplayFilled(p: Post, edits: seq<Edit>, editing: bool)
    requires Filled(p)
    ensures Filled(Replay(p, edits, editing))
    decreases |edits|
  {
    if edits != [] {
      ReplayFilled(Step(p, edits[0], editing), edits[1..], editing);
    }
  }

  /** The body `savePost` sends: the post, with the status given (or its own
      when none is given), and a publication time stamped with `now`
      whenever the given status is `published`, replacing any earlier one. */
  function SaveBody(p: Post, status: Option<Status>, now: string): (r: Post)
    ensures r.(status := p.status, publishedAt := p.publishedAt) == p
    ensures status.Some? ==> r.status == status.value
    ensures status.None? ==> r.status == p.status
    ensures status == Some(Published) ==> r.publishedAt == Some(now)
    ensures status != Some(Published) ==> r.publishedAt == p.publishedAt
  {
    p.(status := status.GetOr(p.status),
       publishedAt := if status == Some(Published) then Some(now) else p.publishedAt)
  }

  datatype HttpMethod = POST | PUT

  /** A request to the posts API. */
  datatype Request = Request(verb: HttpMethod, url: string, body: Post)

  /** `PUT /api/posts/{id}` for a stored post, `POST /api/posts` for a new
      one. */
  function SaveRequest(postId: Option<string>, p: Post, status: Option<Status>, now: string): (r: Request)
    ensures r.verb == PUT <==> IsEditing(postId)
    ensures IsEditing(postId) ==> r.url == "/api/posts/" + postId.value
    ensures !IsEditing(postId) ==> r.url == "/api/posts"
    ensures r.body == SaveBody(p, status, now)
  {
    if IsEditing(postId) then Request(PUT, "/api/posts/" + postId.value, SaveBody(p, status, now))
    else Request(POST, "/api/posts", SaveBody(p, status, now))
  }

  /** `!!postId`: an absent or empty id means a new post. */
  predicate IsEditing(postId: Option<string>) {
    postId.Some? && postId.value != ""
  }

  /** A template literal prints an absent id as `undefined`. */
  function IdText(id: Option<string>): string {
    if id.Some? then id.value else "undefined"
  }

  /** The editor component: the post in the form and the text of the tag
      input. The id it was opened with never changes. */
  class Editor {
    const postId: Option<string>
    var post: Post
    var newTag: string

    predicate Valid()
      reads this
    {
      Filled(post)
    }

    /** A fresh form; on mount the effects find every field empty and change
        nothing. */
    constructor (postId: Option<string>)
      ensures this.postId == postId && post == EmptyPost() && newTag == ""
      ensures Valid()
    {
      this.postId := postId;
      post := EmptyPost();
      newTag := "";
    }

    function Editing(): bool
      reads this
    {
      IsEditing(postId)
    }

    /** One edit of the form, followed by its effects. */
    method Edit(e: Edit)
      requires Valid()
      modifies this
      ensures post == Step(old(post), e, Editing()) && newTag == old(newTag)
      ensures Valid()
    {
      post := Step(post, e, Editing());
    }

    /** The response to loading a stored post replaces the form's post. */
    method Load(response: Option<Post>)
      requires Valid()
      modifies this
      ensures Editing() && response.Some? ==> post == Step(old(post), Replace(response.value), true)
      ensures !Editing() || response.None? ==> post == old(post)
      ensures newTag == old(newTag)
      ensures Valid()
    {
      if Editing() && response.Some? {
        post := Step(post, Replace(response.value), true);
      }
    }

    method SetNewTag(v: string)
      modifies this
      ensures newTag == v && post == old(post)
    {
      newTag := v;
    }

    /** `addTag`: a new, non-empty tag is appended and the input cleared;
        otherwise nothing changes, the input included. */
    method AddTagFromInput()
      requires Valid()
      modifies this
      ensures old(newTag) != "" && old(newTag) !in old(post).tags ==>
        post == old(post).(tags := old(post).tags + [old(newTag)]) && newTag == ""
      ensures old(newTag) == "" || old(newTag) in old(post).tags ==>
        post == old(post) && newTag == old(newTag)
      ensures Valid()
    {
      if newTag != "" && newTag !in post.tags {
        TagEditSettles(post, AddTag(newTag), Editing());
        post := Step(post, AddTag(newTag), Editing());
        newTag := "";
      }
    }

    /** `removeTag`: every copy of the tag goes, the rest keep their order. */
    method RemoveTagBadge(t: string)
      requires Valid()
      modifies this
      ensures post == old(post).(tags := WithoutTag(old(post).tags, t))
      ensures newTag == old(newTag)
      ensures Valid()
    {
      TagEditSettles(post, RemoveTag(t), Editing());
      post := Step(post, RemoveTag(t), Editing());
    }

    /** `savePost`: the request sent and, for a successful response, either
        the address of the new post's edit page or the stored post put back
        in the form. */
    method Save(status: Option<Status>, now: string, response: Option<Post>)
      returns (request: Request, navigateTo: Option<string>)
      requires Valid()
      modifies this
      ensures request == SaveRequest(postId, old(post), status, now)
      ensures navigateTo.Some? <==> response.Some? && !Editing()
      ensures navigateTo.Some? ==> navigateTo.value == "/posts/" + IdText(response.value.id) + "/edit"
      ensures response.Some? && Editing() ==> post == Step(old(post), Replace(response.value), true)
      ensures response.None? || !Editing() ==> post == old(post)
      ensures newTag == old(newTag)
      ensures Valid()
    {
      request := SaveRequest(postId, post, status, now);
      navigateTo := None;
      if response.Some? {
        if !Editing() {
          navigateTo := Some("/posts/" + IdText(response.value.id) + "/edit");
        } else {
          post := Step(post, Replace(response.value), true);
        }
      }
    }
  }
}
