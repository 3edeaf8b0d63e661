/** The in-memory category table behind the admin API: a module-level list
    of categories that the API mutates in place. Timestamps are milliseconds
    since the epoch; the clock reading and the new id are parameters. */
module MockCategories {
  import opened Wrappers
  import opened Lists
  import opened Slug

  datatype Category = Category(
    id: string,
    name: string,
    slug: string,
    description: string,
    color: string,
    postCount: int,
    createdAt: int,
    updatedAt: int)

  /** What a caller supplies to create a category. */
  datatype CategoryInput = CategoryInput(name: string, slug: string, description: string, color: string)

  /** A partial category: the fields present override, the absent ones keep
      their value. An `updatedAt` among the updates is always overwritten by
      the clock, so the updates do not carry one. */
  datatype CategoryUpdates = CategoryUpdates(
    id: Option<string>,
    name: Option<string>,
    slug: Option<string>,
    description: Option<string>,
    color: Option<string>,
    postCount: Option<int>,
    createdAt: Option<int>)

  function NoUpdates(): CategoryUpdates {
    CategoryUpdates(None, None, None, None, None, None, None)
  }

  /** One day in milliseconds. */
  const Day: int := 86400000

  const TechnologyDescription: string :=
    "Posts about latest technology trends, programming, and digital innovation."
  const LifestyleDescription: string :=
    "Content about daily life, wellness, and personal development."
  const BusinessDescription: string :=
    "Insights on entrepreneurship, marketing, and business strategy."
  const DesignDescription: string :=
    "UI/UX design, creative processes, and visual inspiration."

  /** The four categories the table starts with, created at `now` and at one,
      two and three days before. */
  function Seed(now: int): (r: seq<Category>)
    ensures |r| == 4
  {
    [ Category("1", "Technology", "technology", TechnologyDescription, "#3B82F6", 5, now, now),
      Category("2", "Lifestyle", "lifestyle", LifestyleDescription, "#10B981", 3, now - Day, now),
      Category("3", "Business", "business", BusinessDescription, "#F59E0B", 2, now - 2 * Day, now),
      Category("4", "Design", "design", DesignDescription, "#8B5CF6", 0, now - 3 * Day, now) ]
  }

  function UpdatedAt(c: Category): int {
    c.updatedAt
  }

  function HasId(id: string): Category -> bool {
    (c: Category) => c.id == id
  }

  function HasSlug(slug: string): Category -> bool {
    (c: Category) => c.slug == slug
  }

  /** No id occurs twice. */
  predicate UniqueIds(cs: seq<Category>) {
    forall i, j :: 0 <= i < j < |cs| ==> cs[i].id != cs[j].id
  }

  /** Every post count is non-negative. */
  predicate CountsNonNegative(cs: seq<Category>) {
    forall i :: 0 <= i < |cs| ==> cs[i].postCount >= 0
  }

  /** The seed has distinct ids, no negative count, and every category was
      last updated at the same instant. */
  lemma SeedFacts(now: int)
    ensures UniqueIds(Seed(now)) && CountsNonNegative(Seed(now))
    ensures forall i :: 0 <= i < |Seed(now)| ==> Seed(now)[i].updatedAt == now
  {
  }

  /** Sorting the seed newest-first keeps its order: the sort is stable and
      every seed category has the same `updatedAt`. */
  lemma SeedOrderKept(now: int)
    ensures SortDesc(Seed(now), UpdatedAt) == Seed(now)
  {
    SeedFacts(now);
    SortDescSameKey(Seed(now), UpdatedAt, now);
  }

  /** The position of the first category with this id, or -1. */
  function Position(cs: seq<Category>, id: string): (k: int)
    ensures -1 <= k < |cs|
    ensures k == -1 <==> forall i :: 0 <= i < |cs| ==> cs[i].id != id
    ensures k >= 0 ==> cs[k].id == id && forall i :: 0 <= i < k ==> cs[i].id != id
  {
    FirstIndex(cs, HasId(id))
  }

  /** The first category with the given id, or nothing. */
  function FindById(cs: seq<Category>, id: string): (r: Option<Category>)
    ensures r.None? <==> forall i :: 0 <= i < |cs| ==> cs[i].id != id
    ensures r.Some? ==> r.value.id == id && r.value == cs[Position(cs, id)]
  {
    var k := Position(cs, id);
    if k == -1 then None else Some(cs[k])
  }

  /** The first category with the given slug, or nothing. */
  function FindBySlug(cs: seq<Category>, slug: string): (r: Option<Category>)
    ensures r.None? <==> forall i :: 0 <= i < |cs| ==> cs[i].slug != slug
    ensures r.Some? ==> exists k :: 0 <= k < |cs| && cs[k] == r.value && r.value.slug == slug
                                    && forall i :: 0 <= i < k ==> cs[i].slug != slug
  {
    var k := FirstIndex(cs, HasSlug(slug));
    if k == -1 then None else Some(cs[k])
  }

  /** A new category: the slug is always derived from the name, whatever
      slug the input carries, and the post count starts at zero. */
  function NewCategory(input: CategoryInput, id: string, now: int): (r: Category)
    ensures r.id == id && r.name == input.name && r.description == input.description && r.color == input.color
    ensures r.slug == Slugify(input.name)
    ensures r.postCount == 0 && r.createdAt == now && r.updatedAt == now
  {
    Category(id, input.name, Slugify(input.name), input.description, input.color, 0, now, now)
  }

  /** A new category always carries a well-formed slug. */
  lemma NewCategoryHasSlug(input: CategoryInput, id: string, now: int)
    ensures IsSlug(NewCategory(input, id, now).slug)
  {
    SlugifyIsSlug(input.name);
  }

  /** The slug given in the input plays no part in the new category. */
  lemma NewCategoryIgnoresSlug(input: CategoryInput, slug: string, id: string, now: int)
    ensures NewCategory(input.(slug := slug), id, now) == NewCategory(input, id, now)
  {
  }

  /** A non-empty new name brings a slug derived from it, replacing any slug
      supplied; an absent or empty name leaves the updates as they are. */
  function RewriteSlug(u: CategoryUpdates): (r: CategoryUpdates)
    ensures r.(slug := u.slug) == u
    ensures u.name.Some? && u.name.value != "" ==> r.slug == Some(Slugify(u.name.value)) && IsSlug(r.slug.value)
    ensures !(u.name.Some? && u.name.value != "") ==> r == u
  {
    if u.name.Some? && u.name.value != "" then
      SlugifyIsSlug(u.name.value);
      u.(slug := Some(Slugify(u.name.value)))
    else u
  }

  /** Rewriting the slug a second time changes nothing. */
  lemma RewriteSlugIdempotent(u: CategoryUpdates)
    ensures RewriteSlug(RewriteSlug(u)) == RewriteSlug(u)
  {
  }

  /** `{ ...c, ...u, updatedAt: now }`: each field present in the updates
      overrides, each absent one is kept, and `updatedAt` is the clock. */
  function Merge(c: Category, u: CategoryUpdates, now: int): (r: Category)
    ensures u.id.Some? ==> r.id == u.id.value
    ensures u.id.None? ==> r.id == c.id
    ensures u.name.Some? ==> r.name == u.name.value
    ensures u.name.None? ==> r.name == c.name
    ensures u.slug.Some? ==> r.slug == u.slug.value
    ensures u.slug.None? ==> r.slug == c.slug
    ensures u.description.Some? ==> r.description == u.description.value
    ensures u.description.None? ==> r.description == c.description
    ensures u.color.Some? ==> r.color == u.color.value
    ensures u.color.None? ==> r.color == c.color
    ensures u.postCount.Some? ==> r.postCount == u.postCount.value
    ensures u.postCount.None? ==> r.postCount == c.postCount
    ensures u.createdAt.Some? ==> r.createdAt == u.createdAt.value
    ensures u.createdAt.None? ==> r.createdAt == c.createdAt
    ensures r.updatedAt == now
  {
    Category(
      u.id.GetOr(c.id), u.name.GetOr(c.name), u.slug.GetOr(c.slug),
      u.description.GetOr(c.description), u.color.GetOr(c.color),
      u.postCount.GetOr(c.postCount), u.createdAt.GetOr(c.createdAt), now)
  }

  /** Merging no updates only refreshes the timestamp. */
  lemma MergeNothing(c: Category, now: int)
    ensures Merge(c, NoUpdates(), now) == c.(updatedAt := now)
  {
  }

  /** Merging the same updates twice is merging them once. */
  lemma MergeIdempotent(c: Category, u: CategoryUpdates, now: int)
    ensures Merge(Merge(c, u, now), u, now) == Merge(c, u, now)
  {
  }

  /** After an update that carries a non-empty name, the slug follows the
      name, even when the updates supplied another slug; with an empty name
      the name is cleared and the old slug stays unless a slug is supplied. */
  lemma UpdateSlugFollowsName(c: Category, u: CategoryUpdates, now: int)
    ensures u.name.Some? && u.name.value != "" ==>
              Merge(c, RewriteSlug(u), now).slug == Slugify(u.name.value)
              && IsSlug(Merge(c, RewriteSlug(u), now).slug)
    ensures u.name == Some("") && u.slug.None? ==>
              Merge(c, RewriteSlug(u), now).name == "" && Merge(c, RewriteSlug(u), now).slug == c.slug
  {
  }

  /** The table after `updateCategory`: only the first category with the id
      is replaced, by its merge with the (slug-rewritten) updates. */
  function Updated(cs: seq<Category>, id: string, u: CategoryUpdates, now: int): (r: seq<Category>)
    ensures |r| == |cs|
    ensures Position(cs, id) == -1 ==> r == cs
    ensures Position(cs, id) >= 0 ==> r[Position(cs, id)] == Merge(cs[Position(cs, id)], RewriteSlug(u), now)
    ensures forall i :: 0 <= i < |cs| && i != Position(cs, id) ==> r[i] == cs[i]
  {
    var k := Position(cs, id);
    if k == -1 then cs else cs[k := Merge(cs[k], RewriteSlug(u), now)]
  }

  /** After an update that keeps the id, looking the id up finds the merged
      category. */
  lemma UpdatedThenFound(cs: seq<Category>, id: string, u: CategoryUpdates, now: int)
    requires Position(cs, id) >= 0 && u.id.None?
    ensures FindById(Updated(cs, id, u, now), id) == Some(Merge(cs[Position(cs, id)], RewriteSlug(u), now))
  {
    var k := Position(cs, id);
    var r := Updated(cs, id, u, now);
    assert r[k].id == id;
    assert forall i :: 0 <= i < k ==> r[i].id != id;
  }

  /** The table after `deleteCategory`: the first category with the id is
      gone, the others keep their order. */
  function Removed(cs: seq<Category>, id: string): (r: seq<Category>)
    ensures Position(cs, id) == -1 ==> r == cs
    ensures Position(cs, id) >= 0 ==> r == cs[..Position(cs, id)] + cs[Position(cs, id) + 1..]
  {
    var k := Position(cs, id);
    if k == -1 then cs else RemoveAt(cs, k)
  }

  /** In a table with unique ids, a deleted id can no longer be found. */
  lemma RemovedIsGone(cs: seq<Category>, id: string)
    requires UniqueIds(cs)
    ensures FindById(Removed(cs, id), id).None?
  {
    var k := Position(cs, id);
    if k >= 0 {
      var r := Removed(cs, id);
      forall i | 0 <= i < |r| ensures r[i].id != id {
        if i < k { assert r[i] == cs[i]; } else { assert r[i] == cs[i + 1]; }
      }
    }
  }

  /** Deleting one id leaves every other category to be found as before. */
  lemma RemovedKeepsOthers(cs: seq<Category>, id: string, other: string)
    requires other != id
    ensures FindById(Removed(cs, id), other) == FindById(cs, other)
  {
    var k := Position(cs, id);
    if k >= 0 {
      var r := RemoveAt(cs, k);
      assert Removed(cs, id) == r;
      FirstIndexAfterRemoveAt(cs, k, HasId(other));
      var j := Position(cs, other);
      assert Position(r, other) == (if j == -1 then -1 else if j < k then j else j - 1);
      if j >= 0 {
        if j < k { assert r[j] == cs[j]; } else { assert r[j - 1] == cs[j]; }
      }
    }
  }

  /** The table after `incrementCategoryPostCount`. */
  function Incremented(cs: seq<Category>, id: string, now: int): (r: seq<Category>)
    ensures |r| == |cs|
    ensures Position(cs, id) == -1 ==> r == cs
    ensures Position(cs, id) >= 0 ==>
              r[Position(cs, id)] == cs[Position(cs, id)].(postCount := cs[Position(cs, id)].postCount + 1, updatedAt := now)
    ensures forall i :: 0 <= i < |cs| && i != Position(cs, id) ==> r[i] == cs[i]
  {
    var k := Position(cs, id);
    if k == -1 then cs else cs[k := cs[k].(postCount := cs[k].postCount + 1, updatedAt := now)]
  }

  /** The table after `decrementCategoryPostCount`: only a positive count is
      lowered. */
  function Decremented(cs: seq<Category>, id: string, now: int): (r: seq<Category>)
    ensures |r| == |cs|
    ensures Position(cs, id) == -1 || cs[Position(cs, id)].postCount <= 0 ==> r == cs
    ensures Position(cs, id) >= 0 && cs[Position(cs, id)].postCount > 0 ==>
              r[Position(cs, id)] == cs[Position(cs, id)].(postCount := cs[Position(cs, id)].postCount - 1, updatedAt := now)
    ensures forall i :: 0 <= i < |cs| && i != Position(cs, id) ==> r[i] == cs[i]
  {
    var k := Position(cs, id);
    if k == -1 || cs[k].postCount <= 0 then cs
    else cs[k := cs[k].(postCount := cs[k].postCount - 1, updatedAt := now)]
  }

  /** No table operation makes a count negative (an update can, only by
      supplying a negative count itself). */
  lemma CountsStayNonNegative(cs: seq<Category>, c: Category, id: string, u: CategoryUpdates, now: int)
    requires CountsNonNegative(cs)
    ensures c.postCount >= 0 ==> CountsNonNegative([c] + cs)
    ensures CountsNonNegative(Incremented(cs, id, now))
    ensures CountsNonNegative(Decremented(cs, id, now))
    ensures CountsNonNegative(Removed(cs, id))
    ensures u.postCount.None? || u.postCount.value >= 0 ==> CountsNonNegative(Updated(cs, id, u, now))
  {
    var k := Position(cs, id);
    if c.postCount >= 0 {
      forall i | 0 <= i < |[c] + cs| ensures ([c] + cs)[i].postCount >= 0 {
        if i > 0 { assert ([c] + cs)[i] == cs[i - 1]; }
      }
    }
  }

  /** Incrementing then decrementing a count restores it: only the
      timestamp of that category moves. */
  lemma IncrementThenDecrement(cs: seq<Category>, id: string, now: int)
    requires CountsNonNegative(cs)
    ensures Position(cs, id) >= 0 ==>
              Decremented(Incremented(cs, id, now), id, now) == cs[Position(cs, id) := cs[Position(cs, id)].(updatedAt := now)]
    ensures Position(cs, id) == -1 ==> Decremented(Incremented(cs, id, now), id, now) == cs
  {
    var k := Position(cs, id);
    var up := Incremented(cs, id, now);
    if k >= 0 {
      assert forall i :: 0 <= i < |cs| ==> up[i].id == cs[i].id;
      assert Position(up, id) == k;
    }
  }

  /** The module-level table. */
  class Store {
    var categories: seq<Category>

    /** The table as the module loads it. */
    constructor (now: int)
      ensures categories == Seed(now)
    {
      categories := Seed(now);
    }

    /** `getAllCategories`: sorts the table itself newest-first (stably) and
        hands it back. */
    method GetAll() returns (r: seq<Category>)
      modifies this
      ensures categories == SortDesc(old(categories), UpdatedAt) && r == categories
      ensures SortedDesc(r, UpdatedAt)
      ensures multiset(r) == multiset(old(categories))
      ensures forall t :: Filter(r, KeyIs(UpdatedAt, t)) == Filter(old(categories), KeyIs(UpdatedAt, t))
    {
      SortDescSorted(categories, UpdatedAt);
      SortDescPermutation(categories, UpdatedAt);
      forall t ensures Filter(SortDesc(categories, UpdatedAt), KeyIs(UpdatedAt, t)) == Filter(categories, KeyIs(UpdatedAt, t)) {
        SortDescStable(categories, UpdatedAt, t);
      }
      categories := SortDesc(categories, UpdatedAt);
      r := categories;
    }

    /** `getCategoryById`. */
    function GetById(id: string): (r: Option<Category>)
      reads this
      ensures r.None? <==> forall i :: 0 <= i < |categories| ==> categories[i].id != id
      ensures r.Some? ==> r.value.id == id && r.value in categories
      ensures r.Some? ==> r.value == categories[Position(categories, id)]
    {
      FindById(categories, id)
    }

    /** `getCategoryBySlug`. */
    function GetBySlug(slug: string): (r: Option<Category>)
      reads this
      ensures r.None? <==> forall i :: 0 <= i < |categories| ==> categories[i].slug != slug
      ensures r.Some? ==> r.value.slug == slug && r.value in categories
      ensures r.Some? ==> exists k :: 0 <= k < |categories| && categories[k] == r.value
                                      && forall i :: 0 <= i < k ==> categories[i].slug != slug
    {
      FindBySlug(categories, slug)
    }

    /** `createCategory`: puts the new category at the front; the others
        shift by one, unchanged. */
    method Create(input: CategoryInput, id: string, now: int) returns (c: Category)
      modifies this
      ensures c == NewCategory(input, id, now)
      ensures categories == [c] + old(categories)
      ensures FindById(categories, id) == Some(c)
    {
      c := NewCategory(input, id, now);
      categories := [c] + categories;
      assert Position(categories, id) == 0;
    }

    /** `updateCategory`. It also writes the regenerated slug into the
        caller's `updates` object; that object comes back as
        `updatesAfter`. */
    method Update(id: string, updates: CategoryUpdates, now: int) returns (r: Option<Category>, updatesAfter: CategoryUpdates)
      modifies this
      ensures categories == Updated(old(categories), id, updates, now)
      ensures Position(old(categories), id) == -1 ==> r.None? && updatesAfter == updates
      ensures Position(old(categories), id) >= 0 ==>
                updatesAfter == RewriteSlug(updates)
                && r == Some(categories[Position(old(categories), id)])
    {
      var k := Position(categories, id);
      if k == -1 {
        return None, updates;
      }
      updatesAfter := RewriteSlug(updates);
      categories := categories[k := Merge(categories[k], updatesAfter, now)];
      r := Some(categories[k]);
    }

    /** `deleteCategory`: `true` exactly when a category had the id. */
    method Delete(id: string) returns (deleted: bool)
      modifies this
      ensures categories == Removed(old(categories), id)
      ensures deleted <==> exists i :: 0 <= i < |old(categories)| && old(categories)[i].id == id
      ensures deleted ==> |categories| == |old(categories)| - 1
    {
      var k := Position(categories, id);
      if k == -1 {
        return false;
      }
      categories := RemoveAt(categories, k);
      deleted := true;
    }

    /** `incrementCategoryPostCount`. */
    method IncrementPostCount(id: string, now: int)
      modifies this
      ensures categories == Incremented(old(categories), id, now)
    {
      var k := Position(categories, id);
      if k >= 0 {
        categories := categories[k := categories[k].(postCount := categories[k].postCount + 1, updatedAt := now)];
      }
    }

    /** `decrementCategoryPostCount`. */
    method DecrementPostCount(id: string, now: int)
      modifies this
      ensures categories == Decremented(old(categories), id, now)
    {
      var k := Position(categories, id);
      if k >= 0 && categories[k].postCount > 0 {
        categories := categories[k := categories[k].(postCount := categories[k].postCount - 1, updatedAt := now)];
      }
    }
  }
}
