/** The posts page: a local copy of the post list with a search box, a
    status filter, per-status counts and the statistics cards. Server
    responses and the answer to the browser's confirmation dialog are
    parameters. */
module PostsPage {
  import opened Wrappers
  import opened Text
  import opened Lists
  import opened PostStatus

  /** A post as the list shows it. The status is the string the server sent,
      which the page does not check. */
  datatype PostRow = PostRow(
    id: string,
    title: string,
    slug: string,
    excerpt: string,
    status: string,
    featured: bool,
    viewCount: int,
    authorName: string,
    publishedAt: Option<int>,
    createdAt: int)

  /** A post matches a search term when its lower-cased title or excerpt
      contains the lower-cased term. */
  predicate MatchesSearch(p: PostRow, term: string) {
    Contains(Lower(p.title), Lower(term)) || Contains(Lower(p.excerpt), Lower(term))
  }

  /** The status filter is `'all'` or the status a post must have. */
  predicate MatchesStatus(p: PostRow, filter: string) {
    filter == "all" || p.status == filter
  }

  function IsVisible(term: string, filter: string): PostRow -> bool {
    (p: PostRow) => MatchesSearch(p, term) && MatchesStatus(p, filter)
  }

  /** The posts listed under the search box and the filter buttons. */
  function FilteredPosts(ps: seq<PostRow>, term: string, filter: string): (r: seq<PostRow>)
    ensures |r| <= |ps|
    ensures forall p :: p in r <==> p in ps && MatchesSearch(p, term) && MatchesStatus(p, filter)
  {
    forall p ensures p in Filter(ps, IsVisible(term, filter)) <==> p in ps && IsVisible(term, filter)(p) {
      FilterMembership(ps, IsVisible(term, filter), p);
    }
    Filter(ps, IsVisible(term, filter))
  }

  /** With the filter on `'all'` and an empty search every post is listed,
      in order. */
  lemma ShowAll(ps: seq<PostRow>)
    ensures FilteredPosts(ps, "", "all") == ps
  {
    forall i | 0 <= i < |ps| ensures IsVisible("", "all")(ps[i]) {
      assert Lower("") == [] && Contains(Lower(ps[i].title), []);
    }
    FilterAll(ps, IsVisible("", "all"));
  }

  /** The listed posts keep their relative order: filtering a list made of
      two parts filters each part. */
  lemma FilterKeepsOrder(a: seq<PostRow>, b: seq<PostRow>, term: string, filter: string)
    ensures FilteredPosts(a + b, term, filter) == FilteredPosts(a, term, filter) + FilteredPosts(b, term, filter)
  {
    FilterConcat(a, b, IsVisible(term, filter));
  }

  function HasStatus(s: string): PostRow -> bool {
    (p: PostRow) => p.status == s
  }

  /** The count shown on a filter button and on the status cards. */
  function StatusCount(ps: seq<PostRow>, s: string): (n: nat)
    ensures n <= |ps|
  {
    |Filter(ps, HasStatus(s))|
  }

  /** Every status the list holds is one of the three. */
  predicate KnownStatuses(ps: seq<PostRow>) {
    forall i :: 0 <= i < |ps| ==> Parse(ps[i].status).Some?
  }

  /** The published, draft and archived counts add up to the number of posts
      when every status is known. */
  lemma {:induction false} StatusCountsAddUp(ps: seq<PostRow>)
    requires KnownStatuses(ps)
    ensures StatusCount(ps, "published") + StatusCount(ps, "draft") + StatusCount(ps, "archived") == |ps|
  {
    if ps != [] {
      assert KnownStatuses(ps[1..]) by {
        forall i | 0 <= i < |ps[1..]| ensures Parse(ps[1..][i].status).Some? {
          assert ps[1..][i] == ps[i + 1];
        }
      }
      StatusCountsAddUp(ps[1..]);
      assert Parse(ps[0].status).Some?;
    }
  }

  const PublishedColor: string := "bg-green-100 text-green-800 dark:bg-green-900 dark:text-green-200"
  const DraftColor: string := "bg-yellow-100 text-yellow-800 dark:bg-yellow-900 dark:text-yellow-200"
  const ArchivedColor: string := "bg-gray-100 text-gray-800 dark:bg-gray-800 dark:text-gray-200"
  const OtherColor: string := "bg-gray-100 text-gray-800"

  /** The badge classes for a status; any other string gets the plain grey
      badge. */
  function StatusColor(status: string): (r: string)
    ensures Parse(status).None? <==> r == OtherColor
  {
    assert |OtherColor| < |ArchivedColor| && |OtherColor| < |DraftColor| && |OtherColor| < |PublishedColor|;
    if status == "published" then PublishedColor
    else if status == "draft" then DraftColor
    else if status == "archived" then ArchivedColor
    else OtherColor
  }

  /** The three known statuses get three different badges. */
  lemma StatusColorsDistinct()
    ensures StatusColor("published") != StatusColor("draft")
    ensures StatusColor("published") != StatusColor("archived")
    ensures StatusColor("draft") != StatusColor("archived")
  {
    assert |ArchivedColor| < |PublishedColor| < |DraftColor|;
  }

  function ViewCount(p: PostRow): int {
    p.viewCount
  }

  predicate IsFeatured(p: PostRow) {
    p.featured
  }

  /** The "Total Views" card. With non-negative view counts the total is
      non-negative and at least the views of any single post. */
  function TotalViews(ps: seq<PostRow>): (n: int)
    ensures (forall i :: 0 <= i < |ps| ==> ps[i].viewCount >= 0) ==>
      n >= 0 && forall i :: 0 <= i < |ps| ==> ps[i].viewCount <= n
  {
    assert (forall i :: 0 <= i < |ps| ==> ps[i].viewCount >= 0) ==>
      Sum(ps, ViewCount) >= 0 && forall i :: 0 <= i < |ps| ==> ps[i].viewCount <= Sum(ps, ViewCount) by {
      if forall i :: 0 <= i < |ps| ==> ps[i].viewCount >= 0 {
        SumNonNegative(ps, ViewCount);
      }
    }
    Sum(ps, ViewCount)
  }

  /** The "Featured" card. */
  function FeaturedCount(ps: seq<PostRow>): (n: nat)
    ensures n <= |ps|
  {
    |Filter(ps, IsFeatured)|
  }

  /** The list after a successful feature toggle: posts with the id get
      `featured := !featured`, all others stay as they are. */
  function Toggled(ps: seq<PostRow>, id: string, featured: bool): (r: seq<PostRow>)
    ensures |r| == |ps|
    ensures forall i :: 0 <= i < |ps| && ps[i].id == id ==> r[i] == ps[i].(featured := !featured)
    ensures forall i :: 0 <= i < |ps| && ps[i].id != id ==> r[i] == ps[i]
  {
    seq(|ps|, i requires 0 <= i < |ps| => if ps[i].id == id then ps[i].(featured := !featured) else ps[i])
  }

  /** Toggling a post and toggling it back with the flag it now shows
      restores the list. */
  lemma ToggleTwice(ps: seq<PostRow>, id: string, featured: bool)
    requires forall i :: 0 <= i < |ps| && ps[i].id == id ==> ps[i].featured == featured
    ensures Toggled(Toggled(ps, id, featured), id, !featured) == ps
  {
  }

  function IsNotId(id: string): PostRow -> bool {
    (p: PostRow) => p.id != id
  }

  /** The list after a successful delete: every post with the id is gone,
      the rest keep their order. */
  function WithoutId(ps: seq<PostRow>, id: string): (r: seq<PostRow>)
    ensures forall p :: p in r <==> p in ps && p.id != id
  {
    forall p ensures p in Filter(ps, IsNotId(id)) <==> p in ps && p.id != id {
      FilterMembership(ps, IsNotId(id), p);
    }
    Filter(ps, IsNotId(id))
  }

  /** Deleting an id that is not listed leaves the list as it is. */
  lemma DeleteUnknown(ps: seq<PostRow>, id: string)
    requires forall i :: 0 <= i < |ps| ==> ps[i].id != id
    ensures WithoutId(ps, id) == ps
  {
    FilterAll(ps, IsNotId(id));
  }

  class Page {
    var posts: seq<PostRow>
    var searchTerm: string
    var statusFilter: string

    constructor ()
      ensures posts == [] && searchTerm == "" && statusFilter == "all"
    {
      posts := [];
      searchTerm := "";
      statusFilter := "all";
    }

    /** The list shown under the search box. */
    function Shown(): (r: seq<PostRow>)
      reads this
      ensures forall p :: p in r <==> p in posts && MatchesSearch(p, searchTerm) && MatchesStatus(p, statusFilter)
    {
      FilteredPosts(posts, searchTerm, statusFilter)
    }

    /** Loading the list: a successful response replaces it. */
    method Load(response: Option<seq<PostRow>>)
      modifies this
      ensures posts == if response.Some? then response.value else old(posts)
      ensures searchTerm == old(searchTerm) && statusFilter == old(statusFilter)
    {
      if response.Some? {
        posts := response.value;
      }
    }

    method SetSearchTerm(term: string)
      modifies this
      ensures searchTerm == term && posts == old(posts) && statusFilter == old(statusFilter)
    {
      searchTerm := term;
    }

    /** One of the four filter buttons. */
    method SetStatusFilter(filter: string)
      requires filter == "all" || Parse(filter).Some?
      modifies this
      ensures statusFilter == filter && posts == old(posts) && searchTerm == old(searchTerm)
    {
      statusFilter := filter;
    }

    /** `deletePost`: nothing is sent unless the user confirms; after a
        successful request every post with the id is gone. */
    method Delete(id: string, confirmed: bool, ok: bool) returns (requested: bool)
      modifies this
      ensures requested == confirmed
      ensures confirmed && ok ==> posts == WithoutId(old(posts), id)
      ensures !(confirmed && ok) ==> posts == old(posts)
      ensures searchTerm == old(searchTerm) && statusFilter == old(statusFilter)
    {
      if !confirmed {
        return false;
      }
      requested := true;
      if ok {
        posts := WithoutId(posts, id);
      }
    }

    /** `toggleFeatured`: sends the flipped flag and, on success, shows it on
        every post with the id. */
    method ToggleFeatured(id: string, featured: bool, ok: bool) returns (sent: bool)
      modifies this
      ensures sent == !featured
      ensures ok ==> posts == Toggled(old(posts), id, featured)
      ensures !ok ==> posts == old(posts)
      ensures searchTerm == old(searchTerm) && statusFilter == old(statusFilter)
    {
      sent := !featured;
      if ok {
        posts := Toggled(posts, id, featured);
      }
    }
  }
}
