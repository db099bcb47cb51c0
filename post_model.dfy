/** The Post model: reading time, visibility and the other query scopes,
    the creating/updating hooks that derive slug and reading time, the
    view counter and route binding by slug. */
module PostModel {

  import opened Base
  import opened Schema
  import opened Seqs

  /** Words read per minute. */
  const WordsPerMinute: nat := 200

  /** calculateReadingTime, given the word count of the content with its
      markup stripped: max(1, ceil(words / 200)). */
  function ReadingTime(words: nat): (minutes: nat)
    ensures minutes >= 1
    ensures words <= WordsPerMinute * minutes
    ensures minutes == 1 || WordsPerMinute * (minutes - 1) < words
  {
    CeilAtLeastOne(words, WordsPerMinute)
  }

  lemma ReadingTimeExamples()
    ensures ReadingTime(0) == 1
    ensures ReadingTime(1) == 1
    ensures ReadingTime(200) == 1
    ensures ReadingTime(201) == 2
    ensures ReadingTime(400) == 2
  {
  }

  /** More words never take less time to read. */
  lemma ReadingTimeMonotone(w1: nat, w2: nat)
    requires w1 <= w2
    ensures ReadingTime(w1) <= ReadingTime(w2)
  {
  }

  /** scopePublished for one row: status 'published' and published_at <= now
      (a NULL published_at fails the comparison). */
  predicate Visible(p: Post, now: Timestamp) {
    p.status == Published && p.publishedAt.Some? && p.publishedAt.value <= now
  }

  /** Once visible, a post stays visible as the clock advances; a post is
      never visible before its published_at. */
  lemma VisibleLater(p: Post, now: Timestamp, later: Timestamp)
    requires Visible(p, now) && now <= later
    ensures Visible(p, later)
    ensures forall t: Timestamp | t < p.publishedAt.value :: !Visible(p, t)
  {
  }

  /** Post::published() */
  function PublishedScope(posts: seq<Post>, now: Timestamp): (r: seq<Post>)
    ensures forall p :: p in r <==> p in posts && p.status == Published && p.publishedAt.Some? && p.publishedAt.value <= now
    ensures |r| <= |posts|
  {
    Filter(posts, (p: Post) => Visible(p, now))
  }

  /** Post::featured() */
  function FeaturedScope(posts: seq<Post>): (r: seq<Post>)
    ensures forall p :: p in r <==> p in posts && p.isFeatured
    ensures |r| <= |posts|
  {
    Filter(posts, (p: Post) => p.isFeatured)
  }

  /** Post::draft() */
  function DraftScope(posts: seq<Post>): (r: seq<Post>)
    ensures forall p :: p in r <==> p in posts && p.status == Draft
    ensures |r| <= |posts|
  {
    Filter(posts, (p: Post) => p.status == Draft)
  }

  /** A visible post is never a draft, so the two scopes never overlap. */
  lemma PublishedAndDraftDisjoint(posts: seq<Post>, now: Timestamp)
    ensures |PublishedScope(posts, now)| + |DraftScope(posts)| <= |posts|
  {
    DisjointFiltersBound(posts, (p: Post) => Visible(p, now), (p: Post) => p.status == Draft);
  }

  /** Post::approvedComments(): the post's comments with status 'approved'. */
  function ApprovedComments(comments: seq<Comment>, post: Post): (r: seq<Comment>)
    ensures forall c :: c in r <==> c in comments && c.postId == post.id && c.status == Approved
  {
    Filter(comments, (c: Comment) => c.postId == post.id && c.status == Approved)
  }

  /** Post::incrementViews(): views_count goes up by one and nothing else changes. */
  function IncrementViews(p: Post): (r: Post)
    ensures r.viewsCount == p.viewsCount + 1
    ensures r.(viewsCount := p.viewsCount) == p
  {
    p.(viewsCount := p.viewsCount + 1)
  }

  /** Counting a view does not change whether the post is visible. */
  lemma IncrementKeepsVisibility(p: Post, now: Timestamp)
    ensures Visible(IncrementViews(p), now) == Visible(p, now)
    ensures IncrementViews(p).slug == p.slug
  {
  }

  /** Route model binding by slug (getRouteKeyName): the first row with that slug. */
  function FindBySlug(posts: seq<Post>, slug: string): (r: Option<Post>)
    ensures r.Some? ==> r.value in posts && r.value.slug == slug
    ensures r.None? ==> forall p | p in posts :: p.slug != slug
  {
    if posts == [] then None
    else if posts[0].slug == slug then Some(posts[0])
    else FindBySlug(posts[1..], slug)
  }

  /** Because slugs are unique, a slug names exactly one post. */
  lemma SlugResolvesUniquely(posts: seq<Post>, p: Post)
    requires UniqueSlugs(posts)
    requires p in posts
    ensures FindBySlug(posts, p.slug) == Some(p)
  {
  }

  /** The mass-assignable attribute array handed to create() or update():
      one entry per fillable column, plus the tag ids to sync. */
  datatype PostData = PostData(
    title: Field<string>,
    slug: Field<string>,
    excerpt: Field<string>,
    content: Field<string>,
    featuredImage: Field<string>,
    categoryId: Field<nat>,
    userId: Field<nat>,
    status: Field<PostStatus>,
    publishedAt: Field<Timestamp>,
    scheduledAt: Field<Timestamp>,
    isFeatured: Field<bool>,
    allowComments: Field<bool>,
    readingTime: Field<int>,
    metaData: Field<MetaData>,
    tags: Field<set<nat>>)

  /** A NOT NULL column filled from an attribute: a given value is stored and
      an absent key takes the fallback (the column default on insert, the
      current value on update). A null value is refused before this is used. */
  function FillOr<T>(f: Field<T>, fallback: T): (r: T)
    ensures f.Given? ==> r == f.value
    ensures !f.Given? ==> r == fallback
  {
    if f.Given? then f.value else fallback
  }

  /** The `creating` hook: an empty slug becomes slugify(title) and an empty
      reading time is computed from the content; non-empty values are kept. */
  function CreatingHook(title: string, content: string, slug: Field<string>, readingTime: Field<int>,
                        slugify: string -> string, wordCount: string -> nat): (r: (string, int))
    ensures EmptyString(slug) ==> r.0 == slugify(title)
    ensures !EmptyString(slug) ==> r.0 == slug.value
    ensures EmptyInt(readingTime) ==> r.1 == ReadingTime(wordCount(content)) && r.1 >= 1
    ensures !EmptyInt(readingTime) ==> r.1 == readingTime.value
    ensures r.1 != 0
  {
    (if EmptyString(slug) then slugify(title) else slug.value,
     if EmptyInt(readingTime) then ReadingTime(wordCount(content)) else readingTime.value)
  }

  /** Running the creating hook on its own output changes nothing. */
  lemma CreatingHookIdempotent(title: string, content: string, slug: Field<string>, readingTime: Field<int>,
                               slugify: string -> string, wordCount: string -> nat)
    ensures var r := CreatingHook(title, content, slug, readingTime, slugify, wordCount);
            CreatingHook(title, content, Given(r.0), Given(r.1), slugify, wordCount) == r
  {
  }

  /** The `updating` hook, given the original and the filled title and content:
      the slug is re-derived only when the title changed and the slug is empty;
      the reading time is recomputed exactly when the content changed. */
  function UpdatingHook(originalTitle: string, originalContent: string, title: string, content: string,
                        slug: Field<string>, readingTime: Option<int>,
                        slugify: string -> string, wordCount: string -> nat): (r: (Field<string>, Option<int>))
    ensures title != originalTitle && EmptyString(slug) ==> r.0 == Given(slugify(title))
    ensures !(title != originalTitle && EmptyString(slug)) ==> r.0 == slug
    ensures content != originalContent ==> r.1 == Some(ReadingTime(wordCount(content)))
    ensures content == originalContent ==> r.1 == readingTime
  {
    (if title != originalTitle && EmptyString(slug) then Given(slugify(title)) else slug,
     if content != originalContent then Some(ReadingTime(wordCount(content))) else readingTime)
  }

  /** Post::create($data) before the database checks references and
      uniqueness: fill, the creating hook, then the column defaults. A missing
      title or content, a missing category or author, or a null value for a
      NOT NULL column aborts the insert. */
  function NewPost(id: nat, data: PostData, now: Timestamp,
                   slugify: string -> string, wordCount: string -> nat): (r: Result<Post, DbError>)
    ensures r.Ok? <==>
      && data.title.Given? && data.content.Given?
      && data.categoryId.Given? && data.userId.Given?
      && !data.status.Null? && !data.isFeatured.Null? && !data.allowComments.Null?
    ensures r.Ok? ==>
      var p := r.value;
      && p.id == id && p.createdAt == now
      && p.title == data.title.value && p.content == data.content.value
      && p.categoryId == data.categoryId.value && p.userId == data.userId.value
      && (EmptyString(data.slug) ==> p.slug == slugify(data.title.value))
      && (!EmptyString(data.slug) ==> p.slug == data.slug.value)
      && (EmptyInt(data.readingTime) ==> p.readingTime == Some(ReadingTime(wordCount(data.content.value))))
      && (!EmptyInt(data.readingTime) ==> p.readingTime == Some(data.readingTime.value))
      && p.status == (if data.status.Given? then data.status.value else DefaultPostStatus)
      && p.isFeatured == (if data.isFeatured.Given? then data.isFeatured.value else DefaultIsFeatured)
      && p.allowComments == (if data.allowComments.Given? then data.allowComments.value else DefaultAllowComments)
      && p.publishedAt == ToOption(data.publishedAt)
      && p.scheduledAt == ToOption(data.scheduledAt)
      && p.excerpt == ToOption(data.excerpt) && p.featuredImage == ToOption(data.featuredImage)
      && p.metaData == ToOption(data.metaData)
      && p.viewsCount == 0 && p.commentsCount == 0
      && p.tagIds == (if data.tags.Given? then data.tags.value else {})
  {
    if !data.title.Given? then Err(NotNullViolation("title"))
    else if !data.content.Given? then Err(NotNullViolation("content"))
    else if !data.categoryId.Given? then Err(NotNullViolation("category_id"))
    else if !data.userId.Given? then Err(NotNullViolation("user_id"))
    else if data.status.Null? then Err(NotNullViolation("status"))
    else if data.isFeatured.Null? then Err(NotNullViolation("is_featured"))
    else if data.allowComments.Null? then Err(NotNullViolation("allow_comments"))
    else
      var derived := CreatingHook(data.title.value, data.content.value, data.slug, data.readingTime, slugify, wordCount);
      Ok(Post(
        id := id,
        title := data.title.value,
        slug := derived.0,
        excerpt := ToOption(data.excerpt),
        content := data.content.value,
        featuredImage := ToOption(data.featuredImage),
        categoryId := data.categoryId.value,
        userId := data.userId.value,
        status := FillOr(data.status, DefaultPostStatus),
        publishedAt := ToOption(data.publishedAt),
        scheduledAt := ToOption(data.scheduledAt),
        isFeatured := FillOr(data.isFeatured, DefaultIsFeatured),
        allowComments := FillOr(data.allowComments, DefaultAllowComments),
        viewsCount := 0,
        commentsCount := 0,
        readingTime := Some(derived.1),
        metaData := ToOption(data.metaData),
        createdAt := now,
        tagIds := if data.tags.Given? then data.tags.value else {}))
  }

  /** The tag set after sync: an absent key leaves the tags alone, null detaches
      them all, a list replaces them. */
  function SyncTags(tags: Field<set<nat>>, current: set<nat>): (r: set<nat>)
    ensures tags.Missing? ==> r == current
    ensures tags.Null? ==> r == {}
    ensures tags.Given? ==> r == tags.value
  {
    match tags
    case Missing => current
    case Null => {}
    case Given(ts) => ts
  }

  /** $post->update($data) before the database checks references and
      uniqueness: fill (absent keys keep their value), the updating hook,
      then NOT NULL. Id, counters and creation time are not fillable. */
  function ApplyUpdate(cur: Post, data: PostData,
                       slugify: string -> string, wordCount: string -> nat): (r: Result<Post, DbError>)
    ensures r.Ok? ==>
      var p := r.value;
      && p.id == cur.id && p.viewsCount == cur.viewsCount
      && p.commentsCount == cur.commentsCount && p.createdAt == cur.createdAt
      && p.title == FillOr(data.title, cur.title)
      && p.content == FillOr(data.content, cur.content)
      && p.status == FillOr(data.status, cur.status)
      && p.publishedAt == Overwrite(data.publishedAt, cur.publishedAt)
      && p.scheduledAt == Overwrite(data.scheduledAt, cur.scheduledAt)
      && p.categoryId == FillOr(data.categoryId, cur.categoryId)
      && p.userId == FillOr(data.userId, cur.userId)
      && p.tagIds == SyncTags(data.tags, cur.tagIds)
      && p.excerpt == Overwrite(data.excerpt, cur.excerpt)
      && p.featuredImage == Overwrite(data.featuredImage, cur.featuredImage)
      && p.isFeatured == FillOr(data.isFeatured, cur.isFeatured)
      && p.allowComments == FillOr(data.allowComments, cur.allowComments)
      && p.metaData == Overwrite(data.metaData, cur.metaData)
    ensures r.Ok? ==>
      var p := r.value;
      var slug := if data.slug.Missing? then Given(cur.slug) else data.slug;
      && (p.title != cur.title && EmptyString(slug) ==> p.slug == slugify(p.title))
      && (!(p.title != cur.title && EmptyString(slug)) ==> Given(p.slug) == slug)
      && (p.content != cur.content ==> p.readingTime == Some(ReadingTime(wordCount(p.content))))
      && (p.content == cur.content ==> p.readingTime == Overwrite(data.readingTime, cur.readingTime))
    ensures r.Ok? <==>
      && !data.title.Null? && !data.content.Null?
      && !(data.slug.Null? && FillOr(data.title, cur.title) == cur.title)
      && !data.categoryId.Null? && !data.userId.Null? && !data.status.Null?
      && !data.isFeatured.Null? && !data.allowComments.Null?
    ensures data.slug.Null? && data.title.Missing? && !data.content.Null? ==> r == Err(NotNullViolation("slug"))
  {
    if data.title.Null? then Err(NotNullViolation("title"))
    else if data.content.Null? then Err(NotNullViolation("content"))
    else
      var title := FillOr(data.title, cur.title);
      var content := FillOr(data.content, cur.content);
      var filledSlug := if data.slug.Missing? then Given(cur.slug) else data.slug;
      var derived := UpdatingHook(cur.title, cur.content, title, content, filledSlug,
                                  Overwrite(data.readingTime, cur.readingTime), slugify, wordCount);
      if !derived.0.Given? then Err(NotNullViolation("slug"))
      else if data.categoryId.Null? then Err(NotNullViolation("category_id"))
      else if data.userId.Null? then Err(NotNullViolation("user_id"))
      else if data.status.Null? then Err(NotNullViolation("status"))
      else if data.isFeatured.Null? then Err(NotNullViolation("is_featured"))
      else if data.allowComments.Null? then Err(NotNullViolation("allow_comments"))
      else
        Ok(cur.(
          title := title,
          slug := derived.0.value,
          excerpt := Overwrite(data.excerpt, cur.excerpt),
          content := content,
          featuredImage := Overwrite(data.featuredImage, cur.featuredImage),
          categoryId := FillOr(data.categoryId, cur.categoryId),
          userId := FillOr(data.userId, cur.userId),
          status := FillOr(data.status, cur.status),
          publishedAt := Overwrite(data.publishedAt, cur.publishedAt),
          scheduledAt := Overwrite(data.scheduledAt, cur.scheduledAt),
          isFeatured := FillOr(data.isFeatured, cur.isFeatured),
          allowComments := FillOr(data.allowComments, cur.allowComments),
          readingTime := derived.1,
          metaData := Overwrite(data.metaData, cur.metaData),
          tagIds := SyncTags(data.tags, cur.tagIds)))
  }

  /** The publication dates take no part in whether an update is accepted:
      changing them in the data changes only the two dates written. */
  lemma UpdateOutcomeIgnoresDates(cur: Post, data: PostData, publishedAt: Field<Timestamp>,
                                  scheduledAt: Field<Timestamp>,
                                  slugify: string -> string, wordCount: string -> nat)
    ensures var a := ApplyUpdate(cur, data, slugify, wordCount);
            var b := ApplyUpdate(cur, data.(publishedAt := publishedAt, scheduledAt := scheduledAt), slugify, wordCount);
            && (a.Ok? <==> b.Ok?)
            && (a.Ok? ==> b.value == a.value.(publishedAt := Overwrite(publishedAt, cur.publishedAt),
                                              scheduledAt := Overwrite(scheduledAt, cur.scheduledAt)))
  {
  }

  /** An update that leaves title and content as they are keeps the stored
      slug and reading time unless the data overwrites them. */
  lemma UpdateWithoutTextChangeKeepsDerived(cur: Post, data: PostData,
                                            slugify: string -> string, wordCount: string -> nat)
    requires data.title.Missing? && data.content.Missing?
    requires data.slug.Missing? && data.readingTime.Missing?
    requires ApplyUpdate(cur, data, slugify, wordCount).Ok?
    ensures ApplyUpdate(cur, data, slugify, wordCount).value.slug == cur.slug
    ensures ApplyUpdate(cur, data, slugify, wordCount).value.readingTime == cur.readingTime
  {
  }
}
