# Blog admin: post editor, category and post stores, list pages

This project models the administration app of a small blog. Authors use it to
write posts and to organise the posts into categories. The model covers six
parts of the app:

- **The post editor** (`PostEditor`). It is a form over one post. Three
  effects fill fields in automatically:
  - the slug follows the title while a new post is being written;
  - an empty SEO title takes the title;
  - an empty excerpt takes the first 160 characters of the content with its
    tags stripped, followed by `...`.

  The editor also adds and removes tags, and it builds the save request. A new
  post is created with `POST /api/posts`; an existing one is updated with
  `PUT /api/posts/<id>`. Publishing stamps `publishedAt`. After a new post is
  saved, the editor navigates to that post's edit page.
- **The rich-text editor** (`RichTextEditor`). Its toolbar has 24 entries.
  A click on a button issues at most one editing command to the browser, and
  the model records every command issued. The link dialog inserts
  `<a href="…" …>text</a>` only when both the address and the text are
  non-empty. The component also shows a word count and a reading time.
- **The two in-memory stores**, `MockCategories` and `MockPosts`. They offer
  list (newest update first), look-up by id or slug, create, partial update,
  delete, and, for categories, post-count increment and decrement. Creating a
  category derives its slug from its name. An update that renames a category
  recomputes its slug.
- **The categories page** (`CategoriesPage`). It has search, a create form
  (with a slug preview), an inline edit form, delete with a confirmation
  message that warns about posts still in the category, and four statistics
  cards.
- **The posts page** (`PostsPage`). It has search, a status filter with
  per-status counts, status badges, feature toggling, delete, and four
  statistics cards.

The shared text functions live in their own modules:

- `Text`: the JavaScript whitespace class, `trim`, `toLowerCase`, `includes`,
  `split`/`join`, and the `/\s+/g`-style run replacement;
- `Slug`: the slug pipeline shared by the editor, the categories page and the
  category store;
- `Markup`: tag stripping with `/<[^>]*>/g`, the excerpt, and the word counts
  and reading times;
- `Lists`: filtering, searching, removal, sums, and the stable sort by
  descending key.

Four things from the outside world are not modelled as behaviour; they are
parameters of the operations instead:

- server responses (`Option` values: `None` is a failed request);
- the browser's `confirm`, `prompt` and the current selection;
- the clock (`now`);
- freshly generated ids.

`SlugExamples` and `MarkupExamples` work through concrete inputs.

Three behaviours of the code a reader may not expect; the model follows the
code in each:

- A title with leading or trailing blanks gets a slug with a leading or
  trailing hyphen. The final `trim()` in the slug pipeline runs after the
  blanks have already become `-`. See `SlugExamples.MultipleSpaces`.
- Saving with status `published` re-stamps `publishedAt` every time, not only
  the first time.
- The post editor's reading time is at least one minute, even for empty
  content. Splitting `""` on `' '` gives one piece. See
  `MarkupExamples.EmptyContent`.

## Model

| member | source | states |
|---|---|---|
| PostStatus.Parse | apps/admin/components/post-editor.tsx:32 | a string is accepted as a status only if it is exactly that status's name |
| PostStatus.ParseName | apps/admin/lib/mock-posts.ts:7 | every status's name is parsed back to that status |
| PostStatus.NameInjective | apps/admin/lib/mock-posts.ts:7 | two statuses have the same name exactly when they are the same status |
| Text.Trim | apps/admin/app/categories/categories-page.tsx:70 | `String.prototype.trim`: never lengthens, and gives the empty string exactly when every character is whitespace (the create guard `!name.trim()`) |
| Text.Lower | apps/admin/app/categories/categories-page.tsx:147 | `String.prototype.toLowerCase`: same length, each character lowered on its own, no ASCII capital left |
| Text.Contains | apps/admin/app/categories/categories-page.tsx:147-148 | `String.prototype.includes`: every string includes the empty string and nothing longer than itself |
| Text.TrimEnds | apps/admin/app/categories/categories-page.tsx:70 | a trimmed string is empty or starts and ends with a non-whitespace character |
| Text.ReplaceRunsNoAdjacent | apps/admin/components/post-editor.tsx:79-80 | after every run of a class is replaced by one character of that class, no two neighbouring characters are in the class |
| Text.ReplaceRunsConcat | apps/admin/components/post-editor.tsx:79-80 | run replacement distributes over a concatenation whose left part does not end inside a run |
| Text.Split | apps/admin/components/post-editor.tsx:501 | `String.prototype.split` on one character: one piece more than there are separators, and no piece holds the separator |
| Text.JoinSplit | apps/admin/components/post-editor.tsx:501 | joining the pieces of a split with the separator gives back the string |
| Text.SplitJoin | apps/admin/components/post-editor.tsx:501 | splitting a join of separator-free pieces gives back the pieces |
| Slug.Slugify | apps/admin/components/post-editor.tsx:76-81 | the slug of a title is never longer than the title |
| Slug.CollapsedIsSlug | apps/admin/components/post-editor.tsx:78-80 | after the character filter and both run replacements only `a-z`, `0-9` and single hyphens are left |
| Slug.KeepSlugChars | apps/admin/components/post-editor.tsx:78 | removing characters outside `[a-z0-9\s-]` leaves only kept characters and never lengthens the string |
| Slug.SlugifyIsSlug | apps/admin/components/post-editor.tsx:76-81 | every slug has only `a-z`, `0-9` and `-`, with no two hyphens in a row, and the closing trim removes nothing |
| Slug.SlugifyFixesSlugs | apps/admin/app/categories/categories-page.tsx:137-144 | a string that is already a slug is its own slug |
| Slug.SlugifyIdempotent | apps/admin/lib/mock-categories.ts:68-73 | slugifying a slug again changes nothing |
| Slug.SlugifyFixpoints | apps/admin/lib/mock-categories.ts:94-99 | a string is its own slug exactly when it is a slug |
| SlugExamples.HelloWorld | apps/admin/components/post-editor.tsx:76-81 | the title "Hello, World!" gets the slug "hello-world" |
| SlugExamples.MultipleSpaces | apps/admin/components/post-editor.tsx:76-81 | the title "  multiple   spaces  " gets "-multiple-spaces-": outer blanks survive as hyphens |
| SlugExamples.EmptyTitle | apps/admin/app/categories/categories-page.tsx:137-144 | the empty name gets the empty slug |
| Markup.ReplaceTagsNoTag | apps/admin/components/rich-text-editor.tsx:270 | after every `<…>` is replaced by text without angle brackets, no complete tag is left |
| Markup.ReplaceTagsIdentity | apps/admin/components/rich-text-editor.tsx:275 | text with no complete tag is left unchanged by tag replacement |
| Markup.ReplaceTagsConcat | apps/admin/components/rich-text-editor.tsx:275 | tag replacement distributes over a concatenation whose right part has no `>` |
| Markup.TagStep | apps/admin/components/rich-text-editor.tsx:270 | a complete tag at the front is replaced and the rest is processed on its own |
| Markup.StripTags | apps/admin/components/post-editor.tsx:96 | stripping tags never lengthens the text, adds no character, and leaves no complete tag |
| Markup.TagsToSpaces | apps/admin/components/rich-text-editor.tsx:270 | turning tags into blanks never lengthens the text and leaves no complete tag |
| Markup.StripTagsIdempotent | apps/admin/components/post-editor.tsx:96 | stripping twice is the same as stripping once |
| Markup.StripTagsFixpoints | apps/admin/components/post-editor.tsx:96 | text is unchanged by stripping exactly when it has no complete tag |
| Markup.StripTagsKeepsUnclosed | apps/admin/components/post-editor.tsx:96 | an unclosed `<` at the end survives stripping as written |
| Markup.StripTagsKeepsLength | apps/admin/components/rich-text-editor.tsx:274-276 | stripping keeps the length exactly when there is no tag, so the character count drops for any markup |
| Markup.PlainLength | apps/admin/components/post-editor.tsx:507 | the character count never exceeds the length of the HTML |
| Markup.Excerpt | apps/admin/components/post-editor.tsx:96-97 | the automatic excerpt is the first min(160, length) characters of the stripped content followed by `...`, at most 163 characters |
| Markup.ReadingMinutes | apps/admin/components/post-editor.tsx:163 | the minutes are the least m with 200·m at least the word count (ceiling of words / 200) |
| Markup.ReadingMinutesMonotone | apps/admin/components/rich-text-editor.tsx:278-282 | more words never give fewer minutes |
| Markup.ReadingMinutesExamples | apps/admin/components/post-editor.tsx:163 | 0, 1, 200, 400 and 401 words read in 0, 1, 1, 2 and 3 minutes |
| Markup.WordCountIsRuns | apps/admin/components/rich-text-editor.tsx:269-272 | the editor footer's word count is the number of maximal non-whitespace runs once tags become spaces |
| Markup.GetWordCount | apps/admin/components/rich-text-editor.tsx:269-272 | the footer's word count is zero exactly when the text with tags as spaces is all whitespace |
| Markup.GetReadingTime | apps/admin/components/rich-text-editor.tsx:278-282 | the footer's reading time is zero exactly when there are no words |
| Markup.EditorWordCount | apps/admin/components/post-editor.tsx:501 | the sidebar's word count is at most one more than the number of blanks in the stripped content |
| Markup.EditorWordCountIsRuns | apps/admin/components/post-editor.tsx:501 | the sidebar's word count is the number of maximal runs of non-space characters in the stripped content |
| Markup.EditorReadingTime | apps/admin/components/post-editor.tsx:161-164 | the sidebar's reading time is at least one minute and counts the pieces of a split on `' '`, empty pieces included |
| MarkupExamples.ParagraphWords | apps/admin/components/rich-text-editor.tsx:269-272 | `<p>a</p><p>b</p>` counts two words in the rich-text footer |
| MarkupExamples.HelloWords | apps/admin/components/rich-text-editor.tsx:269-272 | `<p>Hello <b>world</b></p>` counts two words |
| MarkupExamples.ParagraphsStripped | apps/admin/components/post-editor.tsx:96 | stripping `<p>a</p><p>b</p>` glues the words into "ab" |
| MarkupExamples.ParagraphsEditorWords | apps/admin/components/post-editor.tsx:501 | so the post editor's sidebar counts one word where the rich-text footer counts two |
| MarkupExamples.UnclosedStays | apps/admin/components/post-editor.tsx:96 | "1 < 2" is not a tag and is kept |
| MarkupExamples.EmptyContent | apps/admin/components/post-editor.tsx:161-164 | for empty content the footer shows 0 minutes, the sidebar 1 minute, and the character count is 0 |
| Lists.SortDesc | apps/admin/lib/mock-categories.ts:56 | sorting keeps the length of the list |
| Lists.SortDescSorted | apps/admin/lib/mock-categories.ts:56 | the sorted list is in non-increasing key order |
| Lists.SortDescPermutation | apps/admin/lib/mock-posts.ts:91 | sorting keeps every element with its multiplicity |
| Lists.SortDescStable | apps/admin/lib/mock-categories.ts:56 | elements with equal keys keep their relative order |
| Lists.FilterConcat | apps/admin/app/posts/posts-page.tsx:58-63 | filtering a concatenation filters each part, so filtering keeps order |
| PostEditor.SlugEffect | apps/admin/components/post-editor.tsx:73-84 | on a new post with a non-empty title the slug becomes the title's slug; otherwise, and in every other field, the post is unchanged |
| PostEditor.SeoTitleEffect | apps/admin/components/post-editor.tsx:86-91 | an empty SEO title takes the title; a set SEO title and the other fields are unchanged |
| PostEditor.ExcerptEffect | apps/admin/components/post-editor.tsx:93-99 | an empty excerpt takes the automatic excerpt of the content; a set excerpt and the other fields are unchanged |
| PostEditor.Settle | apps/admin/components/post-editor.tsx:73-99 | after a change the effects touch only slug, SEO title and excerpt: the slug follows a changed title on a new post, and a non-empty SEO title or excerpt is kept |
| PostEditor.SettleIsFinal | apps/admin/components/post-editor.tsx:73-99 | running the effects again on their own result changes nothing |
| PostEditor.WithTag | apps/admin/components/post-editor.tsx:147-152 | a non-empty new tag is appended; an empty or already present tag leaves the list unchanged; distinct tags stay distinct |
| PostEditor.WithoutTag | apps/admin/components/post-editor.tsx:154-159 | removing a tag drops exactly that tag and keeps the others |
| PostEditor.RemoveAddedTag | apps/admin/components/post-editor.tsx:147-159 | removing a tag just added restores the tag list |
| PostEditor.RemoveTagKeepsOrder | apps/admin/components/post-editor.tsx:154-159 | removal works part by part, so the remaining tags keep their order |
| PostEditor.Apply | apps/admin/components/post-editor.tsx:257-389 | each field edit sets its own field to the new value and leaves every other field as it was; a cover is set only from a non-empty prompt answer and removal leaves `""`; tag edits apply the add and remove rules; a replacement gives the new post; no edit except a replacement breaks tag distinctness |
| PostEditor.Step | apps/admin/components/post-editor.tsx:257-389 | an edit followed by the effects keeps a post whose title and content imply a filled SEO title and excerpt in that state |
| PostEditor.TagEditSettles | apps/admin/components/post-editor.tsx:147-159 | a tag edit triggers no effect |
| PostEditor.SeoTitleSticks | apps/admin/components/post-editor.tsx:86-91 | once set, the SEO title survives any edits that do not set it or replace the post |
| PostEditor.ExcerptSticks | apps/admin/components/post-editor.tsx:93-99 | once set, the excerpt survives any edits that do not set it or replace the post |
| PostEditor.SlugSticksWhileEditing | apps/admin/components/post-editor.tsx:73-84 | when an existing post is edited its slug changes only by explicit slug edits or a replacement |
| PostEditor.TagsStayDistinct | apps/admin/components/post-editor.tsx:147-152 | tags added through the editor never repeat |
| PostEditor.ReplayFilled | apps/admin/components/post-editor.tsx:86-99 | after any edit sequence a post with a title has an SEO title and one with content has an excerpt |
| PostEditor.SaveBody | apps/admin/components/post-editor.tsx:125-129 | the saved body is the post with the chosen status, or the current one, and `publishedAt` stamped to now exactly when publishing |
| PostEditor.SaveRequest | apps/admin/components/post-editor.tsx:116-129 | the request is a PUT to `/api/posts/<id>` when editing and a POST to `/api/posts` otherwise, carrying the saved body |
| PostEditor.Editor.constructor | apps/admin/components/post-editor.tsx:48-58 | a new editor holds the empty draft post and an empty tag input |
| PostEditor.Editor.Edit | apps/admin/components/post-editor.tsx:257-389 | a field change replaces the post by the edited and settled post |
| PostEditor.Editor.Load | apps/admin/components/post-editor.tsx:101-114 | when editing, a fetched post replaces the form, which then settles; a failed fetch changes nothing |
| PostEditor.Editor.SetNewTag | apps/admin/components/post-editor.tsx:418-422 | typing in the tag box changes only the input |
| PostEditor.Editor.AddTagFromInput | apps/admin/components/post-editor.tsx:147-152 | a non-empty new tag is appended and the input cleared; otherwise nothing changes |
| PostEditor.Editor.RemoveTagBadge | apps/admin/components/post-editor.tsx:154-159 | clicking a badge removes that tag and nothing else |
| PostEditor.Editor.Save | apps/admin/components/post-editor.tsx:116-145 | sends the request above; a created post leads to its edit page, an updated post replaces the form, a failure changes nothing |
| RichTextEditor.Dispatch | apps/admin/components/rich-text-editor.tsx:98-106 | a click issues at most one command: a block button issues `formatBlock` with its tag, a named command is issued with no value, the image button issues `insertImage` only for a non-empty answer, and the link button and the separators issue none |
| RichTextEditor.Toolbar | apps/admin/components/rich-text-editor.tsx:108-133 | the toolbar has 24 entries and every button has a title |
| RichTextEditor.ToolbarButtonsSendOneCall | apps/admin/components/rich-text-editor.tsx:108-133 | the separators sit at positions 2, 7, 12, 16 and 21 and issue nothing; every other button before the link button issues exactly one command |
| RichTextEditor.GroupBlockTags | apps/admin/components/rich-text-editor.tsx:108-133 | the block buttons format h1, h2, h3, p, blockquote and pre, in toolbar groups of their own |
| RichTextEditor.GroupNamedCalls | apps/admin/components/rich-text-editor.tsx:108-133 | among the buttons whose command is a function, only the alignment group calls `execCommand` directly: justifyLeft, justifyCenter, justifyRight |
| RichTextEditor.BlockTagsConcat | apps/admin/components/rich-text-editor.tsx:108-133 | the block tags and named commands of a toolbar are those of its groups in order |
| RichTextEditor.LinkHtml | apps/admin/components/rich-text-editor.tsx:84 | for an address without `>` and text without `<`, stripping the link's tags gives back its text |
| RichTextEditor.Editor.constructor | apps/admin/components/rich-text-editor.tsx:49-53 | starts in edit mode with the link dialog closed and empty, nothing issued |
| RichTextEditor.Editor.ExecCommand | apps/admin/components/rich-text-editor.tsx:56-61 | records exactly one issued command with its value |
| RichTextEditor.Editor.InsertImageFromPrompt | apps/admin/components/rich-text-editor.tsx:67-72 | a non-empty address from the prompt issues `insertImage` with it; a cancelled or empty prompt issues nothing |
| RichTextEditor.Editor.OpenLinkDialog | apps/admin/components/rich-text-editor.tsx:74-80 | opens the dialog, taking a non-empty selection as the link text |
| RichTextEditor.Editor.SetLinkText | apps/admin/components/rich-text-editor.tsx:230 | the text field changes only the link text |
| RichTextEditor.Editor.SetLinkUrl | apps/admin/components/rich-text-editor.tsx:238 | the address field changes only the link address |
| RichTextEditor.Editor.InsertLinkFromDialog | apps/admin/components/rich-text-editor.tsx:82-90 | inserts the link HTML only when text and address are both non-empty, then closes and clears the dialog in every case |
| RichTextEditor.Editor.CancelLinkDialog | apps/admin/components/rich-text-editor.tsx:245-249 | closes and clears the dialog and issues nothing |
| RichTextEditor.Editor.SetPreview | apps/admin/components/rich-text-editor.tsx:153 | switching between edit and preview changes only the mode |
| RichTextEditor.Editor.HandleButtonClick | apps/admin/components/rich-text-editor.tsx:98-106 | issues what the button dispatches; the link button opens the dialog instead |
| MockCategories.Seed | apps/admin/lib/mock-categories.ts:12-53 | the store starts with four categories |
| MockCategories.SeedFacts | apps/admin/lib/mock-categories.ts:12-53 | the seed ids are distinct, its post counts are non-negative and all were updated at start-up |
| MockCategories.SeedOrderKept | apps/admin/lib/mock-categories.ts:55-57 | listing the seed leaves its order unchanged |
| MockCategories.Position | apps/admin/lib/mock-categories.ts:89 | `findIndex` gives the first position with the id, or -1 exactly when no category has it |
| MockCategories.FindById | apps/admin/lib/mock-categories.ts:59-61 | finds nothing exactly when no category has the id; otherwise the first one with it |
| MockCategories.FindBySlug | apps/admin/lib/mock-categories.ts:63-65 | finds nothing exactly when no category has the slug; otherwise a stored category with it |
| MockCategories.NewCategory | apps/admin/lib/mock-categories.ts:67-86 | a created category keeps the given fields, takes the name's slug, and starts with no posts and both timestamps at now |
| MockCategories.NewCategoryHasSlug | apps/admin/lib/mock-categories.ts:68-73 | a created category's slug is well formed |
| MockCategories.NewCategoryIgnoresSlug | apps/admin/lib/mock-categories.ts:75-82 | a slug passed in the input is ignored |
| MockCategories.RewriteSlug | apps/admin/lib/mock-categories.ts:93-100 | an update with a non-empty name gets that name's slug; any other update is left as it is |
| MockCategories.RewriteSlugIdempotent | apps/admin/lib/mock-categories.ts:93-100 | rewriting the slug twice is the same as once |
| MockCategories.Merge | apps/admin/lib/mock-categories.ts:102-106 | each field present in the update wins, each absent field is kept, and `updatedAt` is now |
| MockCategories.MergeNothing | apps/admin/lib/mock-categories.ts:102-106 | an empty update only refreshes `updatedAt` |
| MockCategories.MergeIdempotent | apps/admin/lib/mock-categories.ts:102-106 | applying the same update twice is the same as once |
| MockCategories.UpdateSlugFollowsName | apps/admin/lib/mock-categories.ts:93-106 | renaming to a non-empty name stores that name's slug; renaming to "" keeps the old slug |
| MockCategories.Updated | apps/admin/lib/mock-categories.ts:88-109 | only the first category with the id is merged; an unknown id leaves the list as it is |
| MockCategories.UpdatedThenFound | apps/admin/lib/mock-categories.ts:88-109 | after an update that keeps the id, looking the id up gives the merged category |
| MockCategories.Removed | apps/admin/lib/mock-categories.ts:111-117 | deleting removes the first category with the id and nothing else |
| MockCategories.RemovedIsGone | apps/admin/lib/mock-categories.ts:111-117 | with distinct ids a deleted id is no longer found |
| MockCategories.RemovedKeepsOthers | apps/admin/lib/mock-categories.ts:111-117 | deleting one id changes no look-up of another id |
| MockCategories.Incremented | apps/admin/lib/mock-categories.ts:119-125 | the first category with the id gains one post and is stamped now; the others are unchanged |
| MockCategories.Decremented | apps/admin/lib/mock-categories.ts:127-133 | the first category with the id loses one post only if it has any; the others are unchanged |
| MockCategories.CountsStayNonNegative | apps/admin/lib/mock-categories.ts:67-133 | no store operation makes a post count negative |
| MockCategories.IncrementThenDecrement | apps/admin/lib/mock-categories.ts:119-133 | a decrement undoes an increment apart from the timestamp |
| MockCategories.Store.constructor | apps/admin/lib/mock-categories.ts:12-53 | the store starts with the seed |
| MockCategories.Store.GetAll | apps/admin/lib/mock-categories.ts:55-57 | sorts the stored list in place, newest update first, stably, as a permutation, and returns it |
| MockCategories.Store.GetById | apps/admin/lib/mock-categories.ts:59-61 | finds a stored category with the id exactly when one exists, and it is the first one |
| MockCategories.Store.GetBySlug | apps/admin/lib/mock-categories.ts:63-65 | finds a stored category with the slug exactly when one exists, and it is the first one |
| MockCategories.Store.Create | apps/admin/lib/mock-categories.ts:67-86 | puts the new category at the front, where its id is found |
| MockCategories.Store.Update | apps/admin/lib/mock-categories.ts:88-109 | merges the update into the category with the id and returns it; the caller's update object gets the rewritten slug |
| MockCategories.Store.Delete | apps/admin/lib/mock-categories.ts:111-117 | removes the category and reports whether the id existed, shrinking the list by one when it did |
| MockCategories.Store.IncrementPostCount | apps/admin/lib/mock-categories.ts:119-125 | the list becomes the incremented list |
| MockCategories.Store.DecrementPostCount | apps/admin/lib/mock-categories.ts:127-133 | the list becomes the decremented list |
| MockPosts.Seed | apps/admin/lib/mock-posts.ts:20-88 | the store starts with two posts |
| MockPosts.SeedFacts | apps/admin/lib/mock-posts.ts:20-88 | the seed ids are distinct and both posts were updated at start-up |
| MockPosts.SeedOrderKept | apps/admin/lib/mock-posts.ts:90-92 | listing the seed leaves its order unchanged |
| MockPosts.Position | apps/admin/lib/mock-posts.ts:113 | `findIndex` gives the first position with the id, or -1 exactly when no post has it |
| MockPosts.FindById | apps/admin/lib/mock-posts.ts:94-96 | finds nothing exactly when no post has the id; otherwise the first one with it |
| MockPosts.NewPost | apps/admin/lib/mock-posts.ts:98-110 | a created post keeps every given field, has no views, both timestamps at now, and the fixed admin author |
| MockPosts.Merge | apps/admin/lib/mock-posts.ts:116-120 | each field present in the update wins, each absent field is kept, and `updatedAt` is now |
| MockPosts.MergeNothing | apps/admin/lib/mock-posts.ts:116-120 | an empty update only refreshes `updatedAt` |
| MockPosts.MergeIdempotent | apps/admin/lib/mock-posts.ts:116-120 | applying the same update twice is the same as once |
| MockPosts.Updated | apps/admin/lib/mock-posts.ts:112-122 | only the first post with the id is merged; an unknown id leaves the list as it is |
| MockPosts.UpdatedThenFound | apps/admin/lib/mock-posts.ts:112-122 | after an update that keeps the id, looking the id up gives the merged post |
| MockPosts.Removed | apps/admin/lib/mock-posts.ts:124-130 | deleting removes the first post with the id and nothing else |
| MockPosts.RemovedIsGone | apps/admin/lib/mock-posts.ts:124-130 | with distinct ids a deleted id is no longer found |
| MockPosts.RemovedKeepsOthers | apps/admin/lib/mock-posts.ts:124-130 | deleting one id changes no look-up of another id |
| MockPosts.AppendedIsFound | apps/admin/lib/mock-posts.ts:108 | a post appended with a fresh id is found by that id and keeps the ids distinct |
| MockPosts.Store.constructor | apps/admin/lib/mock-posts.ts:20-88 | the store starts with the seed |
| MockPosts.Store.GetAll | apps/admin/lib/mock-posts.ts:90-92 | sorts the stored list in place, newest update first, stably, as a permutation, and returns it |
| MockPosts.Store.GetById | apps/admin/lib/mock-posts.ts:94-96 | finds a stored post with the id exactly when one exists, and it is the first one |
| MockPosts.Store.Create | apps/admin/lib/mock-posts.ts:98-110 | appends the new post, which a fresh id then finds |
| MockPosts.Store.Update | apps/admin/lib/mock-posts.ts:112-122 | merges the update into the post with the id and returns the stored result, or nothing for an unknown id |
| MockPosts.Store.Delete | apps/admin/lib/mock-posts.ts:124-130 | removes the post and reports whether the id existed, shrinking the list by one when it did |
| CategoriesPage.ColorOptions | apps/admin/app/categories/categories-page.tsx:45-49 | twelve colours are offered and the empty form starts with the first |
| CategoriesPage.FilteredCategories | apps/admin/app/categories/categories-page.tsx:146-149 | a category is listed exactly when its name or description contains the search term, ignoring ASCII case |
| CategoriesPage.EmptySearchKeepsAll | apps/admin/app/categories/categories-page.tsx:146-149 | an empty search lists every category in order |
| CategoriesPage.SearchIdempotent | apps/admin/app/categories/categories-page.tsx:146-149 | searching the search result again changes nothing |
| CategoriesPage.SearchKeepsOrder | apps/admin/app/categories/categories-page.tsx:146-149 | the search keeps the categories' order |
| CategoriesPage.EditUpdates | apps/admin/app/categories/categories-page.tsx:421-426 | the edit form sends name, description, colour and the name's slug, and nothing else |
| CategoriesPage.EditSlugAgrees | apps/admin/app/categories/categories-page.tsx:90-99 | the store's slug rewrite leaves the page's update as it is |
| CategoriesPage.ReplaceById | apps/admin/app/categories/categories-page.tsx:100-102 | every category with the edited id is replaced by the server's copy, the rest are kept |
| CategoriesPage.ReplaceByIdAtPosition | apps/admin/app/categories/categories-page.tsx:100-102 | with distinct ids that replaces exactly one position |
| CategoriesPage.RemoveById | apps/admin/app/categories/categories-page.tsx:130 | after a delete exactly the categories with other ids remain |
| CategoriesPage.RemoveByIdAgrees | apps/admin/app/categories/categories-page.tsx:130 | with distinct ids the page's delete and the store's delete agree |
| CategoriesPage.ConfirmText | apps/admin/app/categories/categories-page.tsx:114-122 | the confirmation differs from the plain question exactly when the category has posts, and then names their number |
| CategoriesPage.CategorizedCount | apps/admin/app/categories/categories-page.tsx:449 | with non-negative counts the total is non-negative and at least any one category's count |
| CategoriesPage.ActiveCount | apps/admin/app/categories/categories-page.tsx:457 | the active categories are at most all categories |
| CategoriesPage.AveragePosts | apps/admin/app/categories/categories-page.tsx:465 | the average is 0 with no categories and otherwise the mean rounded half up |
| CategoriesPage.AverageBounds | apps/admin/app/categories/categories-page.tsx:465 | with non-negative counts the average lies between 0 and the categorized posts |
| CategoriesPage.ActiveAtMostCategorized | apps/admin/app/categories/categories-page.tsx:449-457 | with non-negative counts there are no more active categories than categorized posts |
| CategoriesPage.Page.constructor | apps/admin/app/categories/categories-page.tsx:34-43 | an empty list, empty search, no form open, empty create form |
| CategoriesPage.Page.Shown | apps/admin/app/categories/categories-page.tsx:146-149 | the page shows exactly the stored categories that match the search |
| CategoriesPage.Page.SlugPreview | apps/admin/app/categories/categories-page.tsx:222 | the preview under the name field is always a well formed slug |
| CategoriesPage.Page.Load | apps/admin/app/categories/categories-page.tsx:55-67 | a successful fetch replaces the list; a failure changes nothing |
| CategoriesPage.Page.SetSearchTerm | apps/admin/app/categories/categories-page.tsx:188 | typing a search changes only the term |
| CategoriesPage.Page.SetForm | apps/admin/app/categories/categories-page.tsx:210-250 | typing in the create form changes only the form |
| CategoriesPage.Page.StartCreating | apps/admin/app/categories/categories-page.tsx:172 | opens the create form and nothing else |
| CategoriesPage.Page.CancelCreate | apps/admin/app/categories/categories-page.tsx:263-267 | closes and resets the create form |
| CategoriesPage.Page.Create | apps/admin/app/categories/categories-page.tsx:69-88 | a blank name sends nothing; otherwise the form is sent and a created category goes to the front with the form reset and closed |
| CategoriesPage.Page.StartEditing | apps/admin/app/categories/categories-page.tsx:324 | opens the edit form on the category |
| CategoriesPage.Page.SetEditing | apps/admin/app/categories/categories-page.tsx:375-404 | typing in the edit form sets only the open copy's name, description or colour, keeping its id, slug and count; with no form open nothing changes |
| CategoriesPage.Page.CancelEdit | apps/admin/app/categories/categories-page.tsx:416 | closes the edit form and nothing else |
| CategoriesPage.Page.SubmitEdit | apps/admin/app/categories/categories-page.tsx:90-108 | sends the edit update for the edited id; on success the server's copy replaces it and the form closes |
| CategoriesPage.Page.Delete | apps/admin/app/categories/categories-page.tsx:110-135 | an unknown id asks nothing; otherwise the right question is asked and, when confirmed and successful, the category is gone |
| PostsPage.FilteredPosts | apps/admin/app/posts/posts-page.tsx:58-63 | a post is listed exactly when its title or excerpt contains the term, ignoring ASCII case, and its status passes the filter |
| PostsPage.ShowAll | apps/admin/app/posts/posts-page.tsx:58-63 | with an empty search and the filter on all, every post is listed in order |
| PostsPage.FilterKeepsOrder | apps/admin/app/posts/posts-page.tsx:58-63 | filtering keeps the posts' order |
| PostsPage.StatusCount | apps/admin/app/posts/posts-page.tsx:151-172 | a status count is at most the number of posts |
| PostsPage.StatusCountsAddUp | apps/admin/app/posts/posts-page.tsx:151-172 | when every status is known the published, draft and archived counts add up to all posts |
| PostsPage.StatusColor | apps/admin/app/posts/posts-page.tsx:65-72 | the plain grey badge goes exactly to strings that are not a known status |
| PostsPage.StatusColorsDistinct | apps/admin/app/posts/posts-page.tsx:65-72 | the three known statuses get three different badges |
| PostsPage.FeaturedCount | apps/admin/app/posts/posts-page.tsx:312 | the featured count is at most the number of posts |
| PostsPage.TotalViews | apps/admin/app/posts/posts-page.tsx:304 | with non-negative views the total is non-negative and at least any single post's views |
| PostsPage.Toggled | apps/admin/app/posts/posts-page.tsx:87-102 | after a toggle the posts with the id show the flipped flag, the rest are unchanged |
| PostsPage.ToggleTwice | apps/admin/app/posts/posts-page.tsx:87-102 | toggling back with the flag now shown restores the list |
| PostsPage.WithoutId | apps/admin/app/posts/posts-page.tsx:74-85 | after a delete exactly the posts with other ids remain |
| PostsPage.DeleteUnknown | apps/admin/app/posts/posts-page.tsx:74-85 | deleting an id that is not listed keeps the list |
| PostsPage.Page.constructor | apps/admin/app/posts/posts-page.tsx:35-38 | an empty list, empty search and the filter on all |
| PostsPage.Page.Shown | apps/admin/app/posts/posts-page.tsx:58-63 | the page shows exactly the stored posts that pass search and filter |
| PostsPage.Page.Load | apps/admin/app/posts/posts-page.tsx:44-56 | a successful fetch replaces the list; a failure changes nothing |
| PostsPage.Page.SetSearchTerm | apps/admin/app/posts/posts-page.tsx:141 | typing a search changes only the term |
| PostsPage.Page.SetStatusFilter | apps/admin/app/posts/posts-page.tsx:144-172 | a filter button sets only the filter |
| PostsPage.Page.Delete | apps/admin/app/posts/posts-page.tsx:74-85 | a request is sent exactly when the user confirms; on success every post with the id is gone |
| PostsPage.Page.ToggleFeatured | apps/admin/app/posts/posts-page.tsx:87-102 | the flipped flag is sent; on success it is shown on every post with the id |

## Left out

- Case folding: `toLowerCase` is modelled for ASCII letters only; the other Unicode case mappings are not.
- Lengths count characters, not the UTF-16 code units JavaScript counts.
- The browser's `document.execCommand` has no modelled effect on the document. The model only records which commands are issued. Undo and redo history, `contentEditable` and the HTML shown in preview are left out.
- The React rendering, and the `loading`, `saving`, `isSaving`, `showSidebar` and `showSEO` flags, which only change what is drawn.
- `fetch`, `async` and the router: requests are returned as values and responses are parameters; a thrown error and a response without `ok` are both `None`. The `console.error` calls are left out.
- Date and time: `new Date()` and `toISOString()` become a `now` parameter. The stores keep timestamps as integer milliseconds, not ISO strings. `Date.now().toString()` ids are parameters.
- The random view count shown in the editor's sidebar (post-editor.tsx:520) is left out.
- The `data.categories || []` and `data.posts || []` fallbacks: a response is modelled as a list or a failure.
- The API route handlers that connect the pages to the stores are not part of this model.
- Object identity: `getCategoryById` and `getPostById` return the live stored object, and `getAll` returns the stored array itself. The model returns values, so later mutation through such a reference is not captured.
- `Array.prototype.sort` is the engine's stable sort. It is modelled as a stable insertion sort on the stored list (`Lists.SortDesc`) that produces the same result.
- A partial update that sets a key explicitly to `undefined` overwrites the field with `undefined`; updates are modelled with present or absent fields only.
- CategoriesPage.AveragePosts: the page divides in floating point and rounds with `Math.round`; the model uses exact rational round-half-up, so float rounding error on very large totals is not captured.
- MockCategories.SeedOrderKept, MockPosts.SeedOrderKept: the seed reads the clock once per entry (mock-categories.ts:21, 31, 41, 51; mock-posts.ts:53, 83); the model takes all these reads as one instant `now`. If the clock ticks while the module loads, a later entry has a larger `updatedAt` and listing moves it forward, which these lemmas do not cover.
- RichTextEditor.ToolbarButtonsSendOneCall: the link button (position 22) and the image button (position 23) ask for input first; they are covered by `Dispatch` and `Editor.HandleButtonClick` rather than by this lemma.
