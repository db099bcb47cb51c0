/** The admin post controller: the filtered listing, and store, update and
    destroy, which rewrite the publication dates according to the target
    status before writing the post and its tags. */
module PostController {

  import opened Base
  import opened Schema
  import opened Seqs
  import opened PostModel
  import opened StorePostRequest
  import opened Store

  /** Posts per admin listing page. */
  const AdminPerPage: nat := 15

  /** The listing's filter parameters. `category` is the category id. */
  datatype AdminQuery = AdminQuery(status: Field<string>, category: Field<nat>, search: Field<string>)

  /** The where clauses index() appends, one per filled parameter, ANDed;
      the search matches the title or a non-null excerpt. */
  predicate AdminMatches(p: Post, q: AdminQuery) {
    && (Filled(q.status) ==> StatusName(p.status) == q.status.value)
    && (q.category.Given? ==> p.categoryId == q.category.value)
    && (Filled(q.search) ==> Contains(p.title, q.search.value)
                             || (p.excerpt.Some? && Contains(p.excerpt.value, q.search.value)))
  }

  /** A search term found anywhere in the title finds the post. */
  lemma AdminSearchFindsTitle(p: Post, before: string, term: string, after: string)
    requires p.title == before + term + after
    ensures AdminMatches(p, AdminQuery(Missing, Missing, Given(term)))
  {
    ContainsInfix(before, term, after);
  }

  function AdminFilter(q: AdminQuery): Post -> bool {
    (p: Post) => AdminMatches(p, q)
  }

  /** latest('created_at'): newer rows first. */
  predicate NewerCreated(a: Post, b: Post) {
    a.createdAt >= b.createdAt
  }

  lemma NewerCreatedIsPreorder()
    ensures TotalPreorder(NewerCreated)
  {
  }

  /** The matching posts, newest first, before pagination. */
  function AdminResults(posts: seq<Post>, q: AdminQuery): (r: seq<Post>)
    ensures forall p :: p in r <==> p in posts && AdminMatches(p, q)
    ensures multiset(r) == multiset(Filter(posts, AdminFilter(q)))
    ensures SortedBy(r, NewerCreated)
  {
    NewerCreatedIsPreorder();
    SortBySorted(Filter(posts, AdminFilter(q)), NewerCreated);
    SortBy(Filter(posts, AdminFilter(q)), NewerCreated)
  }

  /** index(): one page of at most 15 matching posts, newest first. */
  function AdminIndex(posts: seq<Post>, q: AdminQuery, page: Field<int>): (r: Page<Post>)
    ensures forall p | p in r.items :: p in posts && AdminMatches(p, q)
    ensures |r.items| <= AdminPerPage
    ensures SortedBy(r.items, NewerCreated)
    ensures r.total <= |posts|
    ensures !Filled(q.status) && !q.category.Given? && !Filled(q.search) ==> r.total == |posts|
    ensures r.currentPage >= 1 && r.total <= r.lastPage * AdminPerPage
    ensures r.total == |AdminResults(posts, q)| && r.total == |Filter(posts, AdminFilter(q))|
    ensures r.currentPage == CurrentPage(page)
    ensures r.lastPage == LastPage(r.total, AdminPerPage)
    ensures r.items == PageOf(AdminResults(posts, q), AdminPerPage, r.currentPage)
  {
    var all := AdminResults(posts, q);
    var r := Paginate(all, AdminPerPage, page);
    assert SortedBy(r.items, NewerCreated) by {
      if (r.currentPage - 1) * AdminPerPage < |all| {
        SortedSlice(all, (r.currentPage - 1) * AdminPerPage,
                    if r.currentPage * AdminPerPage <= |all| then r.currentPage * AdminPerPage else |all|,
                    NewerCreated);
      }
    }
    r
  }

  /** The total is the number of matching posts. */
  lemma AdminTotalCountsMatches(posts: seq<Post>, q: AdminQuery, page: Field<int>)
    requires PostIdsIncreasing(posts)
    ensures AdminIndex(posts, q, page).total == |set p | p in posts && AdminMatches(p, q)|
  {
    PostIdsDistinct(posts);
    FilterDistinct(posts, AdminFilter(q));
    DistinctCard(Filter(posts, AdminFilter(q)));
    assert (set x | x in Filter(posts, AdminFilter(q))) == set p | p in posts && AdminMatches(p, q);
  }

  /** Every matching post is listed on some page between 1 and the last. */
  lemma AdminIndexComplete(posts: seq<Post>, q: AdminQuery, p: Post)
    requires p in posts && AdminMatches(p, q)
    ensures exists n: nat | 1 <= n <= LastPage(|AdminResults(posts, q)|, AdminPerPage) ::
      p in AdminIndex(posts, q, Given(n)).items
  {
    PaginateCovers(AdminResults(posts, q), AdminPerPage, p);
  }

  /** store(): the validated data with the author set to the signed-in user;
      published without a date is stamped now, scheduled loses any
      published_at, and draft passes the dates through. */
  method PrepareStoreData(validated: PostData, authId: nat, now: Timestamp) returns (data: PostData)
    ensures data.userId == Given(authId)
    ensures validated.status == Given(Published) && !validated.publishedAt.Given? ==> data.publishedAt == Given(now)
    ensures validated.status == Given(Published) && validated.publishedAt.Given? ==> data.publishedAt == validated.publishedAt
    ensures validated.status == Given(Scheduled) ==> data.publishedAt == Null
    ensures validated.status != Given(Published) && validated.status != Given(Scheduled) ==>
      data.publishedAt == validated.publishedAt
    ensures data.(userId := validated.userId, publishedAt := validated.publishedAt) == validated
  {
    data := validated.(userId := Given(authId));
    if validated.status == Given(Published) && !validated.publishedAt.Given? {
      data := data.(publishedAt := Given(now));
    } else if validated.status == Given(Scheduled) {
      data := data.(publishedAt := Null);
    }
  }

  /** Why update() wrote nothing: reading a key the validated data lacks
      raises an error before the update, or the store refused the row. */
  datatype UpdateError = UndefinedKey(key: string) | Database(cause: DbError)

  /** update(): the status key is read unguarded, so data without it stops
      here. A move to published from another status without a date is
      stamped now; scheduled loses published_at; draft loses both dates. A
      post that is already published keeps whatever the data says. */
  method PrepareUpdateData(validated: PostData, current: PostStatus, now: Timestamp)
    returns (r: Result<PostData, UpdateError>)
    ensures r.Err? <==> validated.status.Missing?
    ensures r.Err? ==> r.error == UndefinedKey("status")
    ensures r.Ok? && validated.status == Given(Published) && current != Published && !validated.publishedAt.Given? ==>
      r.value.publishedAt == Given(now) && r.value.scheduledAt == validated.scheduledAt
    ensures r.Ok? && validated.status == Given(Published) && (current == Published || validated.publishedAt.Given?) ==>
      r.value == validated
    ensures r.Ok? && validated.status == Given(Scheduled) ==>
      r.value.publishedAt == Null && r.value.scheduledAt == validated.scheduledAt
    ensures r.Ok? && validated.status == Given(Draft) ==> r.value.publishedAt == Null && r.value.scheduledAt == Null
    ensures r.Ok? && validated.status.Null? ==> r.value == validated
    ensures r.Ok? ==> r.value.(publishedAt := validated.publishedAt, scheduledAt := validated.scheduledAt) == validated
  {
    if validated.status.Missing? {
      return Err(UndefinedKey("status"));
    }
    var data := validated;
    if validated.status == Given(Published) && current != Published && !validated.publishedAt.Given? {
      data := data.(publishedAt := Given(now));
    } else if validated.status == Given(Scheduled) {
      data := data.(publishedAt := Null);
    } else if validated.status == Given(Draft) {
      data := data.(publishedAt := Null, scheduledAt := Null);
    }
    r := Ok(data);
  }

  /** Why store() refused a request. */
  datatype StoreError = Unauthorized | Invalid(fields: set<RuleField>) | Refused(cause: DbError)

  /** The lookups the unique and exists rules run against the store. */
  function LookupOf(posts: seq<Post>, categories: seq<Category>, tags: seq<Tag>): Lookup {
    Lookup(Slugs(posts), CategoryIds(categories), TagIds(tags))
  }

  /** The slug the creating hook stores for a request. */
  function StoredSlug(req: StoreRequest, slugify: string -> string): string
    requires req.title.Given?
  {
    if EmptyString(req.slug) then slugify(req.title.value) else req.slug.value
  }

  /** POST /admin/posts: authorise, validate, rewrite the dates, insert the
      post with its tags. */
  method StorePost(db: BlogStore, req: StoreRequest, auth: Option<nat>, now: Timestamp,
                   slugify: string -> string, wordCount: string -> nat) returns (r: Result<Post, StoreError>)
    requires db.Valid()
    modifies db
    ensures db.Valid()
    ensures r == Err(Unauthorized) <==> auth.None?
    ensures auth.Some? && Validate(req, now, LookupOf(old(db.posts), db.categories, db.tags)).Err? ==>
      r == Err(Invalid(Validate(req, now, LookupOf(old(db.posts), db.categories, db.tags)).error))
    ensures r.Err? && r.error.Invalid? ==> Validate(req, now, LookupOf(old(db.posts), db.categories, db.tags)).Err?
    ensures r.Ok? <==>
      && auth.Some? && Validate(req, now, LookupOf(old(db.posts), db.categories, db.tags)).Ok?
      && StoredSlug(req, slugify) !in Slugs(old(db.posts)) && auth.value in UserIds(db.users)
    ensures r.Err? ==> db.posts == old(db.posts) && db.nextPostId == old(db.nextPostId)
    ensures r.Ok? ==>
      && auth.Some? && r.value.userId == auth.value
      && r.value.id == old(db.nextPostId) && db.posts == old(db.posts) + [r.value]
      && req.status.Given? && StatusName(r.value.status) == req.status.value
      && req.title.Given? && r.value.title == req.title.value && r.value.slug == StoredSlug(req, slugify)
      && r.value.tagIds == (if req.tags.Given? then (set t | t in req.tags.value) else {})
      && req.content.Given? && r.value.content == req.content.value
      && req.categoryId.Given? && r.value.categoryId == req.categoryId.value
      && r.value.excerpt == ToOption(req.excerpt) && r.value.featuredImage == ToOption(req.featuredImage)
      && r.value.isFeatured == CoerceBool(req.isFeatured) && r.value.allowComments == CoerceBool(req.allowComments)
      && r.value.readingTime == Some(ReadingTime(wordCount(req.content.value)))
      && r.value.metaData == ToOption(req.metaData) && r.value.scheduledAt == ToOption(req.scheduledAt)
      && r.value.viewsCount == 0 && r.value.commentsCount == 0 && r.value.createdAt == now
    ensures r.Ok? && r.value.status == Published && !req.publishedAt.Given? ==>
      r.value.publishedAt == Some(now) && Visible(r.value, now)
    ensures r.Ok? && r.value.status == Published && req.publishedAt.Given? ==>
      r.value.publishedAt == Some(req.publishedAt.value)
    ensures r.Ok? && r.value.status == Scheduled ==>
      r.value.publishedAt == None && forall t: Timestamp :: !Visible(r.value, t)
    ensures r.Ok? && r.value.status == Draft ==>
      r.value.publishedAt == ToOption(req.publishedAt) && r.value.scheduledAt == ToOption(req.scheduledAt)
    ensures r.Err? && r.error.Refused? ==>
      && auth.Some? && req.title.Given?
      && (StoredSlug(req, slugify) in Slugs(old(db.posts)) || auth.value !in UserIds(db.users))
    ensures db.users == old(db.users) && db.categories == old(db.categories) && db.tags == old(db.tags)
    ensures db.comments == old(db.comments)
  {
    if !Authorize(auth.Some?) {
      return Err(Unauthorized);
    }
    var checked := Validate(req, now, LookupOf(db.posts, db.categories, db.tags));
    if checked.Err? {
      return Err(Invalid(checked.error));
    }
    var data := PrepareStoreData(checked.value, auth.value, now);
    var created := db.CreatePost(data, now, slugify, wordCount);
    if created.Err? {
      return Err(Refused(created.error));
    }
    r := Ok(created.value);
  }

  /** PUT /admin/posts/{slug}: bind the post by slug, rewrite the dates for
      the target status, update the post and its tags. Update-side
      validation is not part of this model: the data is taken as given. */
  method UpdatePost(db: BlogStore, slug: string, data: PostData, now: Timestamp,
                    slugify: string -> string, wordCount: string -> nat) returns (r: Result<Post, UpdateError>)
    requires db.Valid()
    modifies db
    ensures db.Valid()
    ensures FindBySlug(old(db.posts), slug).None? ==> r == Err(Database(NotFound))
    ensures FindBySlug(old(db.posts), slug).Some? && data.status.Missing? ==> r == Err(UndefinedKey("status"))
    ensures r.Ok? <==>
      && FindBySlug(old(db.posts), slug).Some? && data.status.Present()
      && var cur := FindBySlug(old(db.posts), slug).value;
         && ApplyUpdate(cur, data, slugify, wordCount).Ok?
         && var p := ApplyUpdate(cur, data, slugify, wordCount).value;
            !SlugHeldByOther(old(db.posts), cur.id, p.slug) && PostRefsOk(p, db.categories, db.users, db.tags)
    ensures r.Err? ==> db.posts == old(db.posts)
    ensures r.Ok? ==>
      var cur := FindBySlug(old(db.posts), slug).value;
      && FindBySlug(old(db.posts), slug).Some?
      && (exists i | 0 <= i < |old(db.posts)| :: old(db.posts)[i] == cur && db.posts == old(db.posts)[i := r.value])
      && r.value.id == cur.id && r.value.createdAt == cur.createdAt && r.value.viewsCount == cur.viewsCount
      && r.value.title == FillOr(data.title, cur.title) && r.value.content == FillOr(data.content, cur.content)
      && r.value.status == FillOr(data.status, cur.status)
      && r.value.tagIds == SyncTags(data.tags, cur.tagIds)
      && r.value.categoryId == FillOr(data.categoryId, cur.categoryId)
      && r.value.userId == FillOr(data.userId, cur.userId)
      && r.value.isFeatured == FillOr(data.isFeatured, cur.isFeatured)
      && r.value.allowComments == FillOr(data.allowComments, cur.allowComments)
      && r.value == ApplyUpdate(cur, data, slugify, wordCount).value.(
           publishedAt := r.value.publishedAt, scheduledAt := r.value.scheduledAt)
      && (data.status == Given(Published) && cur.status != Published && !data.publishedAt.Given? ==>
            r.value.publishedAt == Some(now) && Visible(r.value, now))
      && (data.status == Given(Published) && cur.status == Published ==>
            r.value.publishedAt == Overwrite(data.publishedAt, cur.publishedAt))
      && (data.status == Given(Published) && data.publishedAt.Given? ==>
            r.value.publishedAt == Some(data.publishedAt.value))
      && (data.status == Given(Published) ==> r.value.scheduledAt == Overwrite(data.scheduledAt, cur.scheduledAt))
      && (data.status == Given(Scheduled) ==>
            r.value.publishedAt == None && r.value.scheduledAt == Overwrite(data.scheduledAt, cur.scheduledAt))
      && (data.status == Given(Draft) ==> r.value.publishedAt == None && r.value.scheduledAt == None)
      && (data.status.Null? ==> r.value.publishedAt == Overwrite(data.publishedAt, cur.publishedAt))
    ensures db.users == old(db.users) && db.categories == old(db.categories) && db.tags == old(db.tags)
    ensures db.comments == old(db.comments) && db.nextPostId == old(db.nextPostId)
  {
    var bound := FindBySlug(db.posts, slug);
    if bound.None? {
      return Err(Database(NotFound));
    }
    var cur := bound.value;
    var checked := PrepareUpdateData(data, cur.status, now);
    if checked.Err? {
      return Err(checked.error);
    }
    var prepared := checked.value;
    PostIdsDetermineRows(db.posts);
    UpdateOutcomeIgnoresDates(cur, data, prepared.publishedAt, prepared.scheduledAt, slugify, wordCount);
    assert db.posts[IndexOfPost(db.posts, cur.id).value] == cur;
    var updated := db.UpdatePost(cur.id, prepared, slugify, wordCount);
    if updated.Err? {
      return Err(Database(updated.error));
    }
    r := Ok(updated.value);
  }

  /** An already-published post saved again as published with published_at
      sent as null loses its date, and with it its place in the public
      listing; the same request on create would have been stamped now. */
  lemma RepublishWithNullDateHides(cur: Post, data: PostData, now: Timestamp,
                                   slugify: string -> string, wordCount: string -> nat)
    requires cur.status == Published && data.status == Given(Published) && data.publishedAt.Null?
    requires ApplyUpdate(cur, data, slugify, wordCount).Ok?
    ensures forall t: Timestamp :: !Visible(ApplyUpdate(cur, data, slugify, wordCount).value, t)
  {
  }

  /** DELETE /admin/posts/{slug}: bind by slug and delete the post, its
      comments and their replies; `removed` names the comments the cascade
      took, and no other comment goes. */
  method DestroyPost(db: BlogStore, slug: string) returns (found: bool, ghost removed: set<nat>)
    requires db.Valid()
    modifies db
    ensures db.Valid()
    ensures found <==> slug in Slugs(old(db.posts))
    ensures found == FindBySlug(old(db.posts), slug).Some?
    ensures found ==> db.posts == DropPosts(old(db.posts), {FindBySlug(old(db.posts), slug).value.id})
    ensures db.comments == DropComments(old(db.comments), removed)
    ensures found ==> forall c | c in db.comments :: c.postId != FindBySlug(old(db.posts), slug).value.id
    ensures found ==> Justified(old(db.comments), removed,
                                CommentIdsWhere(old(db.comments), OnPosts({FindBySlug(old(db.posts), slug).value.id})))
    ensures found ==> forall c | c in old(db.comments) && c.parentId.None? &&
                                 c.postId != FindBySlug(old(db.posts), slug).value.id :: c in db.comments
    ensures forall p | p in db.posts :: p.slug != slug
    ensures !found ==> db.posts == old(db.posts) && db.comments == old(db.comments) && removed == {}
    ensures db.users == old(db.users) && db.categories == old(db.categories) && db.tags == old(db.tags)
  {
    var bound := FindBySlug(db.posts, slug);
    if bound.None? {
      assert slug !in Slugs(db.posts) by {
        if slug in Slugs(db.posts) {
          KeysWitness(db.posts, SlugKey, slug);
        }
      }
      FilterAll(db.comments, KeepComment({}));
      return false, {};
    }
    var gone := bound.value;
    ghost var before := db.posts;
    ghost var comments := db.comments;
    var deleted;
    deleted, removed := db.DeletePost(gone.id);
    PostIdsDetermineRows(before);
    forall p | p in db.posts ensures p.slug != slug {
      assert p in before && p.id != gone.id;
    }
    OtherRootsStay(comments, removed, gone.id);
    found := true;
  }

  /** A cascade started from one post's comments takes no top-level comment
      of another post. */
  lemma OtherRootsStay(comments: seq<Comment>, removed: set<nat>, id: nat)
    requires CommentIdsIncreasing(comments)
    requires Justified(comments, removed, CommentIdsWhere(comments, OnPosts({id})))
    ensures forall c | c in comments && c.parentId.None? && c.postId != id :: c.id !in removed
    ensures forall c | c in comments && c.parentId.None? && c.postId != id :: c in DropComments(comments, removed)
  {
    CommentIdsDetermineRows(comments);
    forall c | c in comments && c.parentId.None? && c.postId != id ensures c.id !in removed {
      if c.id in removed {
        var c' :| c' in comments && OnPosts({id})(c') && c'.id == c.id;
      }
    }
  }
}
