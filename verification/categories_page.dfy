/** The categories page: a local copy of the category list, a search box, a
    create form and an edit form, plus the statistics cards. Server
    responses and the answer to the browser's confirmation dialog are
    parameters; a response is `None` when the request did not succeed. */
module CategoriesPage {
  import opened Wrappers
  import opened Text
  import opened Lists
  import opened Slug
  import opened MockCategories

  /** The create form. */
  datatype Form = Form(name: string, description: string, color: string)

  /** The create form when empty: the first colour of the palette is chosen. */
  function EmptyForm(): Form {
    Form("", "", "#3B82F6")
  }

  /** The colours the forms offer. */
  function ColorOptions(): (r: seq<string>)
    ensures |r| == 12 && EmptyForm().color == r[0]
  {
    [ "#3B82F6", "#EF4444", "#10B981", "#F59E0B",
      "#8B5CF6", "#EC4899", "#06B6D4", "#84CC16",
      "#F97316", "#6366F1", "#14B8A6", "#F472B6" ]
  }

  /** A category matches a search term when its lower-cased name or
      description contains the lower-cased term. */
  predicate Matches(c: Category, term: string) {
    Contains(Lower(c.name), Lower(term)) || Contains(Lower(c.description), Lower(term))
  }

  function MatchesTerm(term: string): Category -> bool {
    (c: Category) => Matches(c, term)
  }

  /** The categories listed under the search box. */
  function FilteredCategories(cs: seq<Category>, term: string): (r: seq<Category>)
    ensures |r| <= |cs|
    ensures forall c :: c in r <==> c in cs && Matches(c, term)
  {
    forall c ensures c in Filter(cs, MatchesTerm(term)) <==> c in cs && Matches(c, term) {
      FilterMembership(cs, MatchesTerm(term), c);
    }
    Filter(cs, MatchesTerm(term))
  }

  /** An empty search keeps every category, in order. */
  lemma EmptySearchKeepsAll(cs: seq<Category>)
    ensures FilteredCategories(cs, "") == cs
  {
    forall i | 0 <= i < |cs| ensures MatchesTerm("")(cs[i]) {
      assert Lower("") == [] && Contains(Lower(cs[i].name), []);
    }
    FilterAll(cs, MatchesTerm(""));
  }

  /** Searching the search results again changes nothing. */
  lemma SearchIdempotent(cs: seq<Category>, term: string)
    ensures FilteredCategories(FilteredCategories(cs, term), term) == FilteredCategories(cs, term)
  {
    var r := FilteredCategories(cs, term);
    forall i | 0 <= i < |r| ensures MatchesTerm(term)(r[i]) {
      assert r[i] in r;
    }
    FilterAll(r, MatchesTerm(term));
  }

  /** The search keeps the relative order of the categories: searching a
      list made of two parts searches each part. */
  lemma SearchKeepsOrder(a: seq<Category>, b: seq<Category>, term: string)
    ensures FilteredCategories(a + b, term) == FilteredCategories(a, term) + FilteredCategories(b, term)
  {
    FilterConcat(a, b, MatchesTerm(term));
  }

  /** The updates the edit form sends: its name, description and colour,
      and a slug generated from the name. */
  function EditUpdates(e: Category): (u: CategoryUpdates)
    ensures u.name == Some(e.name) && u.description == Some(e.description) && u.color == Some(e.color)
    ensures u.slug == Some(Slugify(e.name))
    ensures u.id.None? && u.postCount.None? && u.createdAt.None?
  {
    CategoryUpdates(None, Some(e.name), Some(Slugify(e.name)), Some(e.description), Some(e.color), None, None)
  }

  /** The page and the table compute the same slug: the table's rewrite of
      the slug leaves the edit form's updates as they are. */
  lemma EditSlugAgrees(e: Category)
    ensures RewriteSlug(EditUpdates(e)) == EditUpdates(e)
  {
  }

  /** `categories.map(cat => cat.id === id ? c : cat)`. */
  function ReplaceById(cs: seq<Category>, id: string, c: Category): (r: seq<Category>)
    ensures |r| == |cs|
    ensures forall i :: 0 <= i < |cs| ==> r[i] == if cs[i].id == id then c else cs[i]
  {
    seq(|cs|, i requires 0 <= i < |cs| => if cs[i].id == id then c else cs[i])
  }

  /** With unique ids, replacing by id is the table's replacement at the
      id's position. */
  lemma ReplaceByIdAtPosition(cs: seq<Category>, id: string, c: Category)
    requires UniqueIds(cs) && Position(cs, id) >= 0
    ensures ReplaceById(cs, id, c) == cs[Position(cs, id) := c]
  {
  }

  function IsNotId(id: string): Category -> bool {
    (c: Category) => c.id != id
  }

  /** `categories.filter(cat => cat.id !== id)`. */
  function RemoveById(cs: seq<Category>, id: string): (r: seq<Category>)
    ensures forall c :: c in r <==> c in cs && c.id != id
  {
    forall c ensures c in Filter(cs, IsNotId(id)) <==> c in cs && c.id != id {
      FilterMembership(cs, IsNotId(id), c);
    }
    Filter(cs, IsNotId(id))
  }

  /** Deleting from a list whose head has another id keeps the head. */
  lemma RemovedPastHead(cs: seq<Category>, id: string)
    requires cs != [] && cs[0].id != id
    ensures Removed(cs, id) == [cs[0]] + Removed(cs[1..], id)
  {
    if Position(cs[1..], id) >= 0 {
      RemoveFirstPastHead(cs, HasId(id));
    } else {
      assert Position(cs, id) == -1;
    }
  }

  /** The tail of a list with unique ids has unique ids. */
  lemma UniqueIdsTail(cs: seq<Category>)
    requires cs != [] && UniqueIds(cs)
    ensures UniqueIds(cs[1..])
  {
    forall i, j | 0 <= i < j < |cs[1..]| ensures cs[1..][i].id != cs[1..][j].id {
      assert cs[1..][i] == cs[i + 1] && cs[1..][j] == cs[j + 1];
    }
  }

  /** With unique ids, the page removes the same category as the table. */
  lemma {:induction false} RemoveByIdAgrees(cs: seq<Category>, id: string)
    requires UniqueIds(cs)
    ensures RemoveById(cs, id) == Removed(cs, id)
  {
    if cs != [] {
      UniqueIdsTail(cs);
      if cs[0].id == id {
        forall i | 0 <= i < |cs[1..]| ensures IsNotId(id)(cs[1..][i]) {
          assert cs[1..][i] == cs[i + 1];
        }
        FilterAll(cs[1..], IsNotId(id));
        assert Position(cs, id) == 0;
      } else {
        RemoveByIdAgrees(cs[1..], id);
        RemovedPastHead(cs, id);
      }
    }
  }

  /** The confirmation asked before deleting: a category with posts warns
      that they will lose it. */
  function ConfirmText(postCount: int): (r: string)
    ensures postCount > 0 <==> r != "Are you sure you want to delete this category?"
    ensures postCount > 0 ==> Contains(r, NatToDecimal(postCount))
  {
    if postCount > 0 then
      var n := NatToDecimal(postCount);
      var r := "This category has " + n + " posts. Are you sure you want to delete it? The posts will be uncategorized.";
      assert r[0] == 'T';
      assert OccursAt(r, n, 18);
      ContainsAt(r, n);
      r
    else "Are you sure you want to delete this category?"
  }

  function PostCount(c: Category): int {
    c.postCount
  }

  predicate IsActive(c: Category) {
    c.postCount > 0
  }

  /** The "Active" card: categories that hold at least one post. */
  function ActiveCount(cs: seq<Category>): (n: nat)
    ensures n <= |cs|
  {
    |Filter(cs, IsActive)|
  }

  /** The "Categorized" card: the posts counted over all categories. With
      no negative count it is non-negative and at least every single count. */
  function CategorizedCount(cs: seq<Category>): (n: int)
    ensures CountsNonNegative(cs) ==> n >= 0 && forall i :: 0 <= i < |cs| ==> cs[i].postCount <= n
  {
    assert CountsNonNegative(cs) ==>
      Sum(cs, PostCount) >= 0 && forall i :: 0 <= i < |cs| ==> cs[i].postCount <= Sum(cs, PostCount) by {
      if CountsNonNegative(cs) {
        SumNonNegative(cs, PostCount);
      }
    }
    Sum(cs, PostCount)
  }

  /** The "Avg Posts" card: `Math.round(sum / length || 0)`, that is the
      average rounded half up, and 0 for an empty list. */
  function AveragePosts(cs: seq<Category>): (r: int)
    ensures |cs| == 0 ==> r == 0
    ensures |cs| > 0 ==> 2 * |cs| * r - |cs| <= 2 * CategorizedCount(cs) < 2 * |cs| * r + |cs|
  {
    var n := |cs|;
    if n == 0 then 0 else (2 * CategorizedCount(cs) + n) / (2 * n)
  }

  /** With non-negative counts the average lies between 0 and the
      categorized total. */
  lemma AverageBounds(cs: seq<Category>)
    requires CountsNonNegative(cs)
    ensures 0 <= AveragePosts(cs) <= CategorizedCount(cs)
  {
    SumNonNegative(cs, PostCount);
    if |cs| > 0 {
      RoundedBounds(|cs|, CategorizedCount(cs), AveragePosts(cs));
    }
  }

  lemma MulMono(n: int, a: int, b: int)
    requires n >= 0 && a <= b
    ensures n * a <= n * b
  {
  }

  /** A non-negative total over `n` items, rounded to the nearest integer,
      lies between 0 and the total. */
  lemma RoundedBounds(n: int, total: int, avg: int)
    requires n > 0 && total >= 0
    requires 2 * n * avg - n <= 2 * total < 2 * n * avg + n
    ensures 0 <= avg <= total
  {
    if avg < 0 {
      MulMono(n, avg, -1);
    }
    if avg > total {
      MulMono(n, total + 1, avg);
      MulMono(total, 1, n);
    }
  }

  /** Each active category holds at least one post, so there are never more
      active categories than categorized posts. */
  lemma {:induction false} ActiveAtMostCategorized(cs: seq<Category>)
    requires CountsNonNegative(cs)
    ensures ActiveCount(cs) <= CategorizedCount(cs)
  {
    if cs != [] {
      assert CountsNonNegative(cs[1..]) by {
        forall i | 0 <= i < |cs[1..]| ensures cs[1..][i].postCount >= 0 {
          assert cs[1..][i] == cs[i + 1];
        }
      }
      ActiveAtMostCategorized(cs[1..]);
    }
  }

  class Page {
    var categories: seq<Category>
    var searchTerm: string
    var isCreating: bool
    var editingCategory: Option<Category>
    var newCategory: Form

    constructor ()
      ensures categories == [] && searchTerm == "" && !isCreating
      ensures editingCategory.None? && newCategory == EmptyForm()
    {
      categories := [];
      searchTerm := "";
      isCreating := false;
      editingCategory := None;
      newCategory := EmptyForm();
    }

    /** The list shown under the search box. */
    function Shown(): (r: seq<Category>)
      reads this
      ensures forall c :: c in r <==> c in categories && Matches(c, searchTerm)
    {
      FilteredCategories(categories, searchTerm)
    }

    /** The read-only slug shown beside the name field. */
    function SlugPreview(): (s: string)
      reads this
      ensures IsSlug(s)
    {
      SlugifyIsSlug(newCategory.name);
      Slugify(newCategory.name)
    }

    /** Loading the list: a successful response replaces it. */
    method Load(response: Option<seq<Category>>)
      modifies this
      ensures categories == if response.Some? then response.value else old(categories)
      ensures searchTerm == old(searchTerm) && isCreating == old(isCreating)
      ensures editingCategory == old(editingCategory) && newCategory == old(newCategory)
    {
      if response.Some? {
        categories := response.value;
      }
    }

    method SetSearchTerm(term: string)
      modifies this
      ensures searchTerm == term
      ensures categories == old(categories) && isCreating == old(isCreating)
      ensures editingCategory == old(editingCategory) && newCategory == old(newCategory)
    {
      searchTerm := term;
    }

    /** Typing into, or choosing a colour in, the create form. */
    method SetForm(f: Form)
      modifies this
      ensures newCategory == f
      ensures categories == old(categories) && searchTerm == old(searchTerm)
      ensures isCreating == old(isCreating) && editingCategory == old(editingCategory)
    {
      newCategory := f;
    }

    method StartCreating()
      modifies this
      ensures isCreating
      ensures categories == old(categories) && searchTerm == old(searchTerm)
      ensures editingCategory == old(editingCategory) && newCategory == old(newCategory)
    {
      isCreating := true;
    }

    /** The create form's Cancel: closes the form and empties it. */
    method CancelCreate()
      modifies this
      ensures !isCreating && newCategory == EmptyForm()
      ensures categories == old(categories) && searchTerm == old(searchTerm)
      ensures editingCategory == old(editingCategory)
    {
      isCreating := false;
      newCategory := EmptyForm();
    }

    /** `createCategory`: a blank name sends nothing; otherwise the form is
        sent, and on success the new category goes to the front of the list
        and the form is emptied and closed. */
    method Create(response: Option<Category>) returns (sent: Option<Form>)
      modifies this
      ensures Trim(old(newCategory).name) == "" ==> sent.None?
      ensures Trim(old(newCategory).name) != "" ==> sent == Some(old(newCategory))
      ensures sent.Some? && response.Some? ==>
                categories == [response.value] + old(categories)
                && newCategory == EmptyForm() && !isCreating
      ensures sent.None? || response.None? ==>
                categories == old(categories) && newCategory == old(newCategory) && isCreating == old(isCreating)
      ensures searchTerm == old(searchTerm) && editingCategory == old(editingCategory)
    {
      if Trim(newCategory.name) == "" {
        return None;
      }
      sent := Some(newCategory);
      if response.Some? {
        categories := [response.value] + categories;
        newCategory := EmptyForm();
        isCreating := false;
      }
    }

    /** Opening the edit form on a category. */
    method StartEditing(c: Category)
      modifies this
      ensures editingCategory == Some(c)
      ensures categories == old(categories) && searchTerm == old(searchTerm)
      ensures isCreating == old(isCreating) && newCategory == old(newCategory)
    {
      editingCategory := Some(c);
    }

    /** Typing into, or choosing a colour in, the open edit form: each handler
        spreads the open copy with a new name, description or colour (the two
        other arguments repeat the copy's own values). The id, slug, post count
        and timestamps stay as loaded, and with no form open nothing opens. */
    method SetEditing(name: string, description: string, color: string)
      modifies this
      ensures old(editingCategory).Some? ==>
                editingCategory == Some(old(editingCategory).value.(name := name, description := description, color := color))
      ensures old(editingCategory).None? ==> editingCategory.None?
      ensures categories == old(categories) && searchTerm == old(searchTerm)
      ensures isCreating == old(isCreating) && newCategory == old(newCategory)
    {
      if editingCategory.Some? {
        editingCategory := Some(editingCategory.value.(name := name, description := description, color := color));
      }
    }

    /** The edit form's Cancel. */
    method CancelEdit()
      modifies this
      ensures editingCategory.None?
      ensures categories == old(categories) && searchTerm == old(searchTerm)
      ensures isCreating == old(isCreating) && newCategory == old(newCategory)
    {
      editingCategory := None;
    }

    /** The edit form's Update button: sends the form's updates for its
        category; on success the returned category replaces every entry with
        that id and the form closes. */
    method SubmitEdit(response: Option<Category>) returns (id: string, sent: CategoryUpdates)
      requires editingCategory.Some?
      modifies this
      ensures id == old(editingCategory).value.id && sent == EditUpdates(old(editingCategory).value)
      ensures response.Some? ==>
                categories == ReplaceById(old(categories), id, response.value) && editingCategory.None?
      ensures response.None? ==> categories == old(categories) && editingCategory == old(editingCategory)
      ensures searchTerm == old(searchTerm) && isCreating == old(isCreating) && newCategory == old(newCategory)
    {
      var e := editingCategory.value;
      id := e.id;
      sent := EditUpdates(e);
      if response.Some? {
        categories := ReplaceById(categories, id, response.value);
        editingCategory := None;
      }
    }

    /** `deleteCategory`: an id not in the list does nothing; otherwise the
        user is asked, with the text fitting the category's post count, and a
        declined confirmation does nothing. After a successful request every
        entry with that id is gone. */
    method Delete(id: string, confirmed: bool, ok: bool) returns (asked: Option<string>, requested: bool)
      modifies this
      ensures FindById(old(categories), id).None? ==> asked.None? && !requested
      ensures FindById(old(categories), id).Some? ==>
                asked == Some(ConfirmText(FindById(old(categories), id).value.postCount)) && requested == confirmed
      ensures requested && ok ==> categories == RemoveById(old(categories), id)
      ensures !(requested && ok) ==> categories == old(categories)
      ensures searchTerm == old(searchTerm) && isCreating == old(isCreating)
      ensures editingCategory == old(editingCategory) && newCategory == old(newCategory)
    {
      var category := FindById(categories, id);
      if category.None? {
        return None, false;
      }
      asked := Some(ConfirmText(category.value.postCount));
      if !confirmed {
        return asked, false;
      }
      requested := true;
      if ok {
        categories := RemoveById(categories, id);
      }
    }
  }
}
