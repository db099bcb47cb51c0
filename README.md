# Blog publication and content-query core, in Dafny

This project models the core of a Laravel blog: how a post moves between
`draft`, `scheduled` and `published`; when it is publicly visible; how its
slug and reading time are derived; what the create form accepts; the admin
and public listings with their filters, ordering and pagination; the featured
strip, the category and tag facets and the related posts; the two-level
approved comment tree; the home and dashboard statistics; and the database
constraints (unique slug, foreign keys, `ON DELETE CASCADE` chains) that
every write has to respect.

Layout, one module per file:

- `base.dfy` (`Base`) holds shared vocabulary:
  - `Option` and `Result`;
  - `Field<T>` = `Missing | Null | Given(v)`, one key of a request or attribute array;
  - PHP's `empty()`, `trim()`-blankness and Laravel's `filled`;
  - substring search (`Contains`), code-point string order and ceiling division;
  - the whitespace trimming and ASCII case folding of PHP's boolean filter.
- `seqs.dfy` (`Seqs`) holds the query building blocks:
  - `Filter` (WHERE), `SortBy` (ORDER BY, an insertion sort with a comparator), `Take` (LIMIT);
  - offset pagination (`PageOf`, `LastPage`, `CurrentPage`, `Paginate`);
  - the set of keys of a table.
- `schema.dfy` (`Schema`) holds the rows of `posts`, `comments`, `categories`, `tags` and `users`:
  - the status enums and column defaults;
  - primary-key sets;
  - the unique-slug and increasing-id invariants.
- `post_model.dfy` (`PostModel`) is the Post model:
  - reading time and the published, featured and draft scopes;
  - the `creating` and `updating` hooks;
  - `Post::create` and `$post->update` as functions from the attribute array to the new row;
  - tag sync, the view counter and route binding by slug.
- `comment_model.dfy` (`CommentModel`) is the Comment model: the display name, the scopes, and parent/replies.
- `store_post_request.dfy` (`StorePostRequest`) is the create form request:
  - authorisation and boolean coercion;
  - one predicate per validation rule;
  - the validated data.
- `blog_store.dfy` (`Store`) is the database, a class `BlogStore` whose fields are the five tables:
  - `Valid()` holds the constraints on the two tables the core writes:
    increasing (so unique) post and comment ids, unique post slugs, post ids
    below the auto-increment counter, and every post's and comment's foreign
    keys;
  - `Valid()` also requires a reply's id to be larger than its parent's. No
    schema constraint says so; it holds because a reply is inserted after
    its parent under an auto-increment id;
  - `Valid()` does not state the keys of `users`, `categories` and `tags`:
    unique ids, unique category and tag slugs, unique user emails. The core
    only reads those tables or deletes from them, and their migrations are
    not part of this model;
  - insert, update, view increment, and the deletes with their cascades;
  - the cascade through reply chains is a loop with invariants.
- `post_controller.dfy` (`PostController`) is the admin listing plus `store`, `update` and `destroy`.
- `blog_controller.dfy` (`BlogController`) is the public listing, featured strip, facets, popular tags, related posts, comment tree and the post page.
- `routes.dfy` (`Routes`) holds the home and dashboard statistics and the recent posts.

The clock (`now`), the signed-in user, `Str::slug` (`slugify`) and the word
count of the stripped content (`wordCount`) are parameters.

The model follows the code where it is narrower than a reader might expect:

- The post page checks only the status, never `published_at`.
- `store` with status draft passes any supplied dates through.
- An already-published post updated with `published_at` sent as null loses its date.
- Replies to replies are not loaded on the post page; they are not attached elsewhere either.
- `comments_count` is never recomputed by the code that is modelled.

## Model

| member | source | states |
|---|---|---|
| Schema.ParseStatus | database/migrations/2024_01_01_000005_create_posts_table.php:23 | a status string denotes the enum value whose stored name it is; strings other than draft, published and scheduled denote none |
| Schema.PostIdsDetermineRows | database/migrations/2024_01_01_000005_create_posts_table.php:15 | with auto-increment ids in increasing order, two post rows with the same id are the same row |
| Schema.PostIdsDistinct | database/migrations/2024_01_01_000005_create_posts_table.php:15 | a posts table whose ids increase holds no row twice |
| Schema.CommentIdsDetermineRows | database/migrations/2024_01_01_000007_create_comments_table.php:15 | the same for comment rows |
| PostModel.ReadingTime | app/Models/Post.php:230-234 | reading time is at least one minute and is the smallest number of minutes m with words <= 200 * m |
| PostModel.ReadingTimeExamples | app/Models/Post.php:233 | 0, 1 and 200 words read in 1 minute; 201 and 400 words in 2 |
| PostModel.ReadingTimeMonotone | app/Models/Post.php:230-234 | more words never give a shorter reading time |
| PostModel.VisibleLater | app/Models/Post.php:186-190 | a visible post stays visible as the clock advances and is never visible before its published_at |
| PostModel.PublishedScope | app/Models/Post.php:186-190 | exactly the rows with status published and a non-null published_at <= now |
| PostModel.FeaturedScope | app/Models/Post.php:198-201 | exactly the rows with is_featured |
| PostModel.DraftScope | app/Models/Post.php:209-212 | exactly the rows with status draft |
| PostModel.PublishedAndDraftDisjoint | app/Models/Post.php:186-212 | no row is in both the published and the draft scope, so their sizes add up to at most the table's |
| PostModel.ApprovedComments | app/Models/Post.php:175-178 | exactly the post's comments with status approved |
| PostModel.IncrementViews | app/Models/Post.php:239-242 | views_count rises by one and every other column is unchanged |
| PostModel.IncrementKeepsVisibility | app/Models/Post.php:239-242 | counting a view changes neither visibility nor slug |
| PostModel.FindBySlug | app/Models/Post.php:217-220 | binding by slug returns a post with that slug, and returns none exactly when no post has it |
| PostModel.SlugResolvesUniquely | routes/web.php:33 | when slugs are unique, binding a post's slug returns that very post |
| PostModel.FillOr | app/Models/Post.php:81-96 | a given attribute is stored; an absent one leaves the fallback (column default or current value) |
| PostModel.CreatingHook | app/Models/Post.php:121-128 | an empty slug (absent, null, "" or "0") becomes slugify(title); an empty reading time is computed from the content; non-empty values are kept |
| PostModel.CreatingHookIdempotent | app/Models/Post.php:121-128 | running the creating hook on its own output changes nothing |
| PostModel.UpdatingHook | app/Models/Post.php:130-137 | the slug is re-derived only when the title changed and the slug is empty; the reading time is recomputed exactly when the content changed |
| PostModel.NewPost | database/migrations/2024_01_01_000005_create_posts_table.php:16-31 | create succeeds iff title, content, category and author are given and no NOT NULL column is set to null; the row carries the given values, the hook's slug and reading time, and the column defaults (draft, not featured, comments allowed, zero counters) |
| PostModel.SyncTags | app/Http/Controllers/PostController.php:142-144 | an absent tags key leaves the tag set alone, null detaches every tag, a list replaces the set |
| PostModel.ApplyUpdate | app/Models/Post.php:130-137 | update succeeds iff no NOT NULL column (title, content, slug, category, author, status, is_featured, allow_comments) ends up null, where a null slug is refused only when the title is unchanged and the hook therefore does not re-derive it; on success id, counters and creation time are kept, each fillable column is the given value or (when absent) the current one, nullable columns become null when sent null, tags follow sync, and the hook decides slug and reading time |
| PostModel.UpdateOutcomeIgnoresDates | app/Http/Controllers/PostController.php:129-139 | rewriting published_at and scheduled_at in the data neither changes whether the update is accepted nor any column other than those two dates |
| PostModel.UpdateWithoutTextChangeKeepsDerived | app/Models/Post.php:130-137 | an update that touches neither title, content, slug nor reading time keeps slug and reading time |
| CommentModel.DisplayName | app/Models/Comment.php:135-138 | the linked user's name, else author_name when not null, else "Anonymous" |
| CommentModel.RegisteredNameWins | app/Models/Comment.php:137 | a comment linked to a user shows that user's name whatever author_name holds |
| CommentModel.ApprovedScope | app/Models/Comment.php:114-117 | exactly the approved comments |
| CommentModel.PendingScope | app/Models/Comment.php:125-128 | exactly the pending comments |
| CommentModel.ApprovedAndPendingDisjoint | app/Models/Comment.php:114-128 | approved and pending counts add up to at most the number of comments |
| CommentModel.Replies | app/Models/Comment.php:103-106 | exactly the comments whose parent_id is the comment's id |
| CommentModel.Parent | app/Models/Comment.php:95-98 | the row parent_id names, or none when parent_id is null or names no row |
| CommentModel.RepliesInverseOfParent | app/Models/Comment.php:95-106 | with unique ids, x is a reply of c exactly when c is the parent of x |
| StorePostRequest.CoerceBool | app/Http/Requests/StorePostRequest.php:69-75 | is_featured and allow_comments become booleans as FILTER_VALIDATE_BOOLEAN reads them: true exactly when the value, trimmed of whitespace and folded to lower case, is 1, true, on or yes; false otherwise, and false when absent or null |
| StorePostRequest.CoerceBoolPadded | app/Http/Requests/StorePostRequest.php:72-73 | a true word in any letter case with any whitespace around it is read as true |
| StorePostRequest.CoerceBoolUnpadded | app/Http/Requests/StorePostRequest.php:72-73 | a value without surrounding whitespace is read as true exactly when its lower-case form is a true word |
| StorePostRequest.CoerceBoolIgnoresCase | app/Http/Requests/StorePostRequest.php:72 | "TRUE" is read as true |
| StorePostRequest.CoerceBoolIgnoresPadding | app/Http/Requests/StorePostRequest.php:72 | " Yes" is read as true |
| StorePostRequest.CoerceBoolFalseExamples | app/Http/Requests/StorePostRequest.php:72-73 | "off", "0" and null are read as false |
| StorePostRequest.Violations | app/Http/Requests/StorePostRequest.php:22-46 | exactly the fields whose rule fails |
| StorePostRequest.Validate | app/Http/Requests/StorePostRequest.php:22-46 | validation passes iff every rule passes; otherwise the exact non-empty set of failing fields is returned; passing data has a required title of at most 255 characters, content, an existing category, a valid status, a future scheduled_at if any, a fresh non-blank slug if any, and existing tags; the validated data carries the request's values with the two flags coerced |
| StorePostRequest.RejectedRequests | app/Http/Requests/StorePostRequest.php:25-45 | a missing or over-long title, an over-long excerpt, missing content, a missing or unknown category, an unknown status, a past scheduled_at, a taken slug and an unknown tag are each refused on that field; an absent scheduled_at is never the reason |
| Store.BlogStore.CreatePost | database/migrations/2024_01_01_000005_create_posts_table.php:17-22 | the insert succeeds iff the row can be built, its slug is new and its category, author and tags exist; on success the row is appended under the next id; on failure nothing changes; the store stays consistent |
| Store.BlogStore.UpdatePost | database/migrations/2024_01_01_000005_create_posts_table.php:17-22 | a missing id is NotFound; the update succeeds iff the row exists, the updated row can be built, no other row holds its slug, and its category, author and tags exist; on success exactly that row is replaced by the updated row; on failure nothing changes; the store stays consistent |
| Store.SlugTakenByOtherRow | database/migrations/2024_01_01_000005_create_posts_table.php:17 | with unique ids, a slug held at another position is a slug held by a row with another id |
| Store.BlogStore.IncrementPostViews | app/Models/Post.php:239-242 | exactly the row with that id has its view counted, and only if it exists |
| Store.BlogStore.DeletePost | database/migrations/2024_01_01_000007_create_comments_table.php:16 | the post is gone, none of its comments remain, every removed comment was on it or a reply to a removed one, the store stays consistent |
| Store.BlogStore.DeleteComment | database/migrations/2024_01_01_000007_create_comments_table.php:18 | the comment and, transitively, its replies are removed and nothing else is; no remaining comment points at a removed parent |
| Store.BlogStore.DeleteCategory | database/migrations/2024_01_01_000005_create_posts_table.php:21 | the category, exactly its posts, and the comments on them (with their replies) are removed; no remaining post is in the category |
| Store.BlogStore.DeleteUser | database/migrations/2024_01_01_000005_create_posts_table.php:22 | the user, exactly their posts, and the comments on those posts or by the user (with their replies) are removed |
| Store.Cascade | database/migrations/2024_01_01_000007_create_comments_table.php:18 | the cascade removes the root comments and every reply to a removed comment, and nothing else |
| Store.CascadeStep | database/migrations/2024_01_01_000007_create_comments_table.php:18 | removing one more root or orphaned reply keeps every removal justified and shrinks what is left |
| Store.AppendKeepsConsistency | database/migrations/2024_01_01_000005_create_posts_table.php:15-22 | appending a row with the next id, a fresh slug and existing references keeps every constraint |
| Store.ReplaceKeepsConsistency | database/migrations/2024_01_01_000005_create_posts_table.php:15-22 | replacing a row by one with the same id, a slug no other row holds and existing references keeps every constraint |
| Store.ReplaceKeepsSlugsUnique | database/migrations/2024_01_01_000005_create_posts_table.php:17 | such a replacement keeps slugs unique |
| Store.DeletionKeepsConsistency | database/migrations/2024_01_01_000005_create_posts_table.php:21-22 | deleting rows whose dependants are deleted with them keeps every constraint |
| Store.RootsLeaveWith | database/migrations/2024_01_01_000007_create_comments_table.php:16-18 | after a cascade no remaining comment satisfies the condition that selected its roots |
| Store.PostsLeaveWithCategory | database/migrations/2024_01_01_000005_create_posts_table.php:21 | once a category's posts are deleted, every remaining post refers to an existing category |
| Store.PostsLeaveWithUser | database/migrations/2024_01_01_000005_create_posts_table.php:22 | once a user's posts are deleted, every remaining post refers to an existing author |
| Store.CommentersLeaveWithUser | database/migrations/2024_01_01_000007_create_comments_table.php:17 | the remaining comments of other users still refer to existing users |
| PostController.AdminResults | app/Http/Controllers/PostController.php:20-40 | exactly the posts passing every filled filter (status name, category id, search in title or excerpt), each as often as in the table (same multiset as the filtered table), newest created first |
| PostController.AdminSearchFindsTitle | app/Http/Controllers/PostController.php:34-39 | a post whose title contains the search term passes the search |
| PostController.AdminIndex | app/Http/Controllers/PostController.php:20-42 | the total is the length of the filtered table (the whole table with no filter); the current page is the requested one when it is an integer of at least 1, else 1; the last page is max(ceil(total / 15), 1); the items are exactly that page's slice of the matching posts, newest created first, at most 15 |
| PostController.AdminTotalCountsMatches | app/Http/Controllers/PostController.php:42 | with ids increasing along the table, the admin listing's total is the number of distinct posts that match |
| PostController.AdminIndexComplete | app/Http/Controllers/PostController.php:42 | every matching post is on some page between 1 and the last |
| PostController.PrepareStoreData | app/Http/Controllers/PostController.php:72-80 | the author is the signed-in user; published without a date is stamped now; published with a date keeps it; scheduled loses published_at; draft passes the dates through; nothing else changes |
| PostController.PrepareUpdateData | app/Http/Controllers/PostController.php:127-137 | data without a status key is an undefined-key error; a move to published from another status without a date is stamped now; scheduled loses published_at; draft loses both dates; a null status, or a published request on an already-published post or with a date, leaves the data untouched; no column but the dates changes |
| PostController.StorePost | app/Http/Controllers/PostController.php:70-91 | a caller is refused as unauthorised exactly when a guest; an invalid request is refused with exactly its failing fields; the store succeeds iff the caller is signed in, the request is valid, the derived slug is new and the author row exists; on success the new post is appended under the next id, created now, with the signed-in author, the requested status, title, content, category, excerpt, image, meta data, scheduled_at, slug, coerced flags and tags, a reading time computed from the content, zero view and comment counts, and the status's date rule (published without date is visible now, scheduled is never visible, draft keeps the sent dates) |
| PostController.UpdatePost | app/Http/Controllers/PostController.php:125-148 | an unknown slug is NotFound; a bound post with data lacking the status key is an undefined-key error and nothing is written; the update succeeds iff the slug is bound, the status key is present, the updated post can be built, no other post holds its slug and its category, author and tags exist; on success exactly the bound post is replaced by the updated row the data builds, differing from it only in the two dates, and the update's date rules hold, including that a published request on an already-published post keeps whatever published_at the data carries and that a published request keeps the scheduled_at the data carries |
| PostController.RepublishWithNullDateHides | app/Http/Controllers/PostController.php:130-131 | re-saving a published post as published with published_at null leaves it invisible at every time |
| PostController.DestroyPost | app/Http/Controllers/PostController.php:153-159 | the bound post is deleted, and no post with that slug remains; the comments left are the old ones minus the cascade's, none is on the post, every removed one was on it or replied to a removed one, and every top-level comment of another post stays; an unknown slug changes nothing |
| PostController.OtherRootsStay | database/migrations/2024_01_01_000007_create_comments_table.php:16-18 | a cascade started from one post's comments removes no top-level comment of another post |
| BlogController.PublicResults | app/Http/Controllers/BlogController.php:18-44 | exactly the visible posts passing every filled filter (search in title, excerpt or content; category slug; tag slug), each as often as in the table, latest published first |
| BlogController.PublicSearchFindsContent | app/Http/Controllers/BlogController.php:22-30 | a visible post whose content contains the search term passes the search |
| BlogController.PublicIndex | app/Http/Controllers/BlogController.php:18-46 | the total is the length of the visible filtered table (never more than the visible posts); the current page is the requested one when it is an integer of at least 1, else 1; the last page is max(ceil(total / 12), 1); the items are exactly that page's slice, latest published first, at most 12 |
| BlogController.PublicTotalCountsMatches | app/Http/Controllers/BlogController.php:46 | with ids increasing along the table, the public listing's total is the number of distinct visible posts that match |
| BlogController.PublicIndexComplete | app/Http/Controllers/BlogController.php:46 | every visible matching post is on some page |
| BlogController.FeaturedCandidates | app/Http/Controllers/BlogController.php:51-56 | exactly the visible featured posts, each as often as in the table, latest published first |
| BlogController.FeaturedStrip | app/Http/Controllers/BlogController.php:49-57 | empty whenever search, category, tag or page is in the query; otherwise the first 3 of the visible featured posts (all of them when fewer), latest published first |
| BlogController.FeaturedStripIsLatest | app/Http/Controllers/BlogController.php:51-56 | a visible featured post left out of the strip means the strip has 3 posts published no earlier |
| BlogController.CategoryPostCount | app/Http/Controllers/BlogController.php:61-64 | the count is the number of visible posts in the category: positive exactly when there is one, never more than all visible posts |
| BlogController.TagPostCount | app/Http/Controllers/BlogController.php:73-76 | the count is the number of visible posts with the tag: positive exactly when there is one, never more than all visible posts |
| BlogController.CategoryCountMatchesListing | app/Http/Controllers/BlogController.php:33-64 | when the category's slug is unique and not blank, its count equals the total of the home listing filtered by that slug |
| BlogController.TagCountMatchesListing | app/Http/Controllers/BlogController.php:40-76 | when the tag's slug is unique and not blank, its count equals the total of the home listing filtered by that slug |
| BlogController.CountedCategories | app/Http/Controllers/BlogController.php:60-65 | the categories shown are the active categories with a positive visible-post count, in table order and each once per row; each with its count |
| BlogController.CategoryFacets | app/Http/Controllers/BlogController.php:60-67 | a reordering of those facets (same multiset), ordered by name |
| BlogController.CountedTags | app/Http/Controllers/BlogController.php:69-76 | the tags shown are the tags with a visible post, in table order and each once per row; each with its count |
| BlogController.RankedTags | app/Http/Controllers/BlogController.php:69-77 | a reordering of those tag facets (same multiset), most used first |
| BlogController.PopularTags | app/Http/Controllers/BlogController.php:69-79 | the first 20 of the ranked tags (all when fewer), each with at least one visible post and its count, most used first |
| BlogController.PopularTagsAreTheMostUsed | app/Http/Controllers/BlogController.php:77-78 | a used tag left out means the list holds 20 tags used at least as often |
| BlogController.RelatedCandidates | app/Http/Controllers/BlogController.php:116-125 | exactly the visible posts other than this one in its category or sharing a tag, each as often as in the table, latest published first |
| BlogController.RelatedPosts | app/Http/Controllers/BlogController.php:116-127 | the first 4 of those candidates (all when fewer), never the post itself, latest published first |
| BlogController.RelatedPostsAreLatest | app/Http/Controllers/BlogController.php:125-126 | a candidate left out means 4 posts published no earlier were listed |
| BlogController.RootComments | app/Http/Controllers/BlogController.php:108-111 | exactly the post's approved comments without a parent, each as often as in the table, newest first |
| BlogController.ApprovedReplies | app/Http/Controllers/BlogController.php:109-110 | exactly a comment's approved direct replies, each as often as in the table, newest first |
| BlogController.CommentTree | app/Http/Controllers/BlogController.php:108-112 | the roots are the post's root comments in their listing order; each root's replies are its approved direct replies in their listing order, newest first |
| BlogController.DeepRepliesNotLoaded | app/Http/Controllers/BlogController.php:108-112 | a reply to a reply is neither a root nor among any root's replies |
| BlogController.Show | app/Http/Controllers/BlogController.php:93-127 | the page is refused exactly when the slug is unknown, or the post is not published and the caller is a guest; otherwise exactly that post's view count rises by one, and the page carries the counted post, its comment tree and its related posts |
| BlogController.GuestSeesUnlistedPublished | app/Http/Controllers/BlogController.php:96 | a guest can open a published post whose published_at is null or in the future, though no listing shows it |
| Routes.SumViews | routes/web.php:43 | the sum of views_count: zero for no rows, the row's count for one row, and never below any single row's count |
| Routes.SumViewsAppend | routes/web.php:43 | the sum over two runs of rows is the sum of their sums |
| Routes.SumViewsOfFilter | routes/web.php:22 | the views of any subset of the rows never exceed the views of all rows |
| Routes.SumViewsAfterView | app/Models/Post.php:239-242 | counting one view raises the total views by exactly one |
| Routes.ActiveCategories | routes/web.php:21 | exactly the categories with is_active |
| Routes.Home | routes/web.php:19-23 | the number of visible posts, of active categories, and the views of visible posts, which are at most the views of all posts |
| Routes.Dashboard | routes/web.php:39-46 | total posts and views; visible and draft counts that add up to at most the total; approved and pending comment counts that add up to at most the number of comments |
| Routes.HomeViewsWithinDashboard | routes/web.php:22 | the home page's views never exceed the dashboard's total views, and both pages count the same visible posts |
| Routes.RecentPosts | routes/web.php:48-51 | the first 5 posts of the table sorted newest created first (all when fewer), so exactly min(5, n) posts drawn from the table |
| Routes.RecentPostsAreNewest | routes/web.php:48-51 | a post left out was created no later than every listed one |

## Left out

- Rendering, redirects, flash messages, eager loading, `withQueryString` and pagination links are not modelled; the model returns the data a page is given.
- `Str::slug` and `str_word_count(strip_tags(..))` are parameters. Nothing is claimed about them beyond being functions.
- SQL `LIKE` is a case-sensitive substring test (`Base.Contains`). Collation, case folding and the `%`/`_` wildcards in user input are not modelled.
- Tie order in every `ORDER BY` is left open. The model claims sortedness and membership, not a particular order among equal keys.
- Timestamps are integers on one clock, and `now` is a parameter. Time zones and the datetime casts are not modelled.
- PostModel.CreatingHook, PostModel.UpdatingHook and PostModel.IncrementViews are modelled on values: they return the new attribute values or row. A post is a row of the store's `posts` table rather than an object of its own, so the write in place is the store's insert, update and view increment (`Store.BlogStore.CreatePost`, `UpdatePost`, `IncrementPostViews`). Aliasing between two loaded copies of one post is not captured.
- PostModel.IncrementViews: `views_count`, `comments_count` and `reading_time` are 32-bit integer columns (database/migrations/2024_01_01_000005_create_posts_table.php:28-30); the model counts with unbounded naturals, so an overflow past 2147483647 is not captured.
- PostController.UpdatePost: `UpdatePostRequest` is not part of this model. The update takes any attribute array, so the validation it would apply is not captured.
- PostController.AdminIndex: query parameters arrive typed. The `category` parameter is a category id, and a non-numeric value is not modelled.
- Store.BlogStore.CreatePost: when several constraints fail at once, the error reported is the first in a fixed order (slug, category, author, tags). The database's own order is not modelled.
- Store.BlogStore.UpdatePost and Store.BlogStore.CreatePost write the post row and its `post_tag` rows in one step. The separate `sync` call after the insert or update is not a separate state.
- The `TrimStrings` and `ConvertEmptyStringsToNull` middleware are not modelled. Request values reach validation as sent.
- Comment creation and moderation are not part of this model, because no code for them is present. For the same reason the model maintains no `comments_count` invariant.
- The `meta_data` JSON cast is not modelled: it is a record of optional strings. So is atomicity of the view increment under concurrent requests.
- The Category, Tag and User models are not part of this model. `Category::active()` is taken as `is_active == true`.
- The factories, the seeder and the front-end pages are not part of this model.
- The `created_at`/`updated_at` bookkeeping beyond `created_at` is not modelled: a post row has no `updated_at`, so the touch that `update` and `increment('views_count')` perform on it is not captured.
- A JSON boolean sent for is_featured or allow_comments is not modelled; the payload carries those flags as strings.
