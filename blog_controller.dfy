/** The public blog: the home listing with its filters, the featured strip,
    the category and tag facets, and the post page with its comment tree and
    related posts. */
module BlogController {

  import opened Base
  import opened Schema
  import opened Seqs
  import opened PostModel
  import opened Store

  /** Posts per public listing page. */
  const PublicPerPage: nat := 12
  /** Size of the featured strip. */
  const FeaturedCount: nat := 3
  /** Size of the popular-tags list. */
  const PopularTagCount: nat := 20
  /** Size of the related-posts list. */
  const RelatedCount: nat := 4

  /** The home page's filter parameters; `category` and `tag` are slugs. */
  datatype PublicQuery = PublicQuery(search: Field<string>, category: Field<string>, tag: Field<string>)

  /** latest('published_at'): later dates first, NULL dates last. */
  predicate NewerPublished(a: Post, b: Post) {
    b.publishedAt.None? || (a.publishedAt.Some? && a.publishedAt.value >= b.publishedAt.value)
  }

  lemma NewerPublishedIsPreorder()
    ensures TotalPreorder(NewerPublished)
  {
  }

  /** whereHas('category', slug = s). */
  predicate InCategoryWithSlug(p: Post, categories: seq<Category>, slug: string) {
    exists c | c in categories :: c.id == p.categoryId && c.slug == slug
  }

  /** whereHas('tags', slug = s). */
  predicate HasTagWithSlug(p: Post, tags: seq<Tag>, slug: string) {
    exists t | t in tags :: t.id in p.tagIds && t.slug == slug
  }

  /** The term occurs in the title, the excerpt or the content. */
  predicate MatchesSearch(p: Post, term: string) {
    Contains(p.title, term) || (p.excerpt.Some? && Contains(p.excerpt.value, term)) || Contains(p.content, term)
  }

  /** The home listing's where clauses: visible, and each filled filter. */
  predicate PublicMatches(p: Post, q: PublicQuery, categories: seq<Category>, tags: seq<Tag>, now: Timestamp) {
    && Visible(p, now)
    && (Filled(q.search) ==> MatchesSearch(p, q.search.value))
    && (Filled(q.category) ==> InCategoryWithSlug(p, categories, q.category.value))
    && (Filled(q.tag) ==> HasTagWithSlug(p, tags, q.tag.value))
  }

  /** A visible post whose content contains the search term is listed by
      the search. */
  lemma PublicSearchFindsContent(p: Post, categories: seq<Category>, tags: seq<Tag>, now: Timestamp,
                                 before: string, term: string, after: string)
    requires Visible(p, now) && p.content == before + term + after
    ensures PublicMatches(p, PublicQuery(Given(term), Missing, Missing), categories, tags, now)
  {
    ContainsInfix(before, term, after);
  }

  function PublicFilter(q: PublicQuery, categories: seq<Category>, tags: seq<Tag>, now: Timestamp): Post -> bool {
    (p: Post) => PublicMatches(p, q, categories, tags, now)
  }

  /** The matching posts, latest publication first, before pagination. */
  function PublicResults(posts: seq<Post>, categories: seq<Category>, tags: seq<Tag>,
                         q: PublicQuery, now: Timestamp): (r: seq<Post>)
    ensures forall p :: p in r <==> p in posts && PublicMatches(p, q, categories, tags, now)
    ensures multiset(r) == multiset(Filter(posts, PublicFilter(q, categories, tags, now)))
    ensures SortedBy(r, NewerPublished)
  {
    NewerPublishedIsPreorder();
    SortBySorted(Filter(posts, PublicFilter(q, categories, tags, now)), NewerPublished);
    SortBy(Filter(posts, PublicFilter(q, categories, tags, now)), NewerPublished)
  }

  /** index(): a page of at most 12 visible posts passing every filled
      filter, latest publication first. */
  function PublicIndex(posts: seq<Post>, categories: seq<Category>, tags: seq<Tag>,
                       q: PublicQuery, page: Field<int>, now: Timestamp): (r: Page<Post>)
    ensures forall p | p in r.items :: p in posts && Visible(p, now)
    ensures forall p | p in r.items :: PublicMatches(p, q, categories, tags, now)
    ensures |r.items| <= PublicPerPage
    ensures SortedBy(r.items, NewerPublished)
    ensures r.total <= |PublishedScope(posts, now)|
    ensures r.total == |PublicResults(posts, categories, tags, q, now)|
    ensures r.total == |Filter(posts, PublicFilter(q, categories, tags, now))|
    ensures r.currentPage == CurrentPage(page)
    ensures r.lastPage == LastPage(r.total, PublicPerPage)
    ensures r.items == PageOf(PublicResults(posts, categories, tags, q, now), PublicPerPage, r.currentPage)
  {
    var all := PublicResults(posts, categories, tags, q, now);
    var r := Paginate(all, PublicPerPage, page);
    assert SortedBy(r.items, NewerPublished) by {
      if (r.currentPage - 1) * PublicPerPage < |all| {
        SortedSlice(all, (r.currentPage - 1) * PublicPerPage,
                    if r.currentPage * PublicPerPage <= |all| then r.currentPage * PublicPerPage else |all|,
                    NewerPublished);
      }
    }
    FilterMonotone(posts, PublicFilter(q, categories, tags, now), (p: Post) => Visible(p, now));
    r
  }

  /** The total is the number of visible posts passing the filters. */
  lemma PublicTotalCountsMatches(posts: seq<Post>, categories: seq<Category>, tags: seq<Tag>,
                                 q: PublicQuery, page: Field<int>, now: Timestamp)
    requires PostIdsIncreasing(posts)
    ensures PublicIndex(posts, categories, tags, q, page, now).total ==
            |set p | p in posts && PublicMatches(p, q, categories, tags, now)|
  {
    PostIdsDistinct(posts);
    FilterDistinct(posts, PublicFilter(q, categories, tags, now));
    DistinctCard(Filter(posts, PublicFilter(q, categories, tags, now)));
    assert (set x | x in Filter(posts, PublicFilter(q, categories, tags, now))) ==
           set p | p in posts && PublicMatches(p, q, categories, tags, now);
  }

  /** Every visible post passing the filters is listed on some page. */
  lemma PublicIndexComplete(posts: seq<Post>, categories: seq<Category>, tags: seq<Tag>,
                            q: PublicQuery, now: Timestamp, p: Post)
    requires p in posts && PublicMatches(p, q, categories, tags, now)
    ensures exists n: nat | 1 <= n <= LastPage(|PublicResults(posts, categories, tags, q, now)|, PublicPerPage) ::
      p in PublicIndex(posts, categories, tags, q, Given(n), now).items
  {
    PaginateCovers(PublicResults(posts, categories, tags, q, now), PublicPerPage, p);
  }

  predicate VisibleFeatured(p: Post, now: Timestamp) {
    Visible(p, now) && p.isFeatured
  }

  function FeaturedFilter(now: Timestamp): Post -> bool {
    (p: Post) => VisibleFeatured(p, now)
  }

  /** Visible featured posts, latest publication first. */
  function FeaturedCandidates(posts: seq<Post>, now: Timestamp): (r: seq<Post>)
    ensures forall p :: p in r <==> p in posts && Visible(p, now) && p.isFeatured
    ensures multiset(r) == multiset(Filter(posts, FeaturedFilter(now)))
    ensures SortedBy(r, NewerPublished)
  {
    NewerPublishedIsPreorder();
    SortBySorted(Filter(posts, FeaturedFilter(now)), NewerPublished);
    SortBy(Filter(posts, FeaturedFilter(now)), NewerPublished)
  }

  /** The featured strip: empty as soon as any of search, category, tag or
      page is in the query (even empty); otherwise the three latest visible
      featured posts. */
  function FeaturedStrip(posts: seq<Post>, q: PublicQuery, page: Field<int>, now: Timestamp): (r: seq<Post>)
    ensures q.search.Present() || q.category.Present() || q.tag.Present() || page.Present() ==> r == []
    ensures !(q.search.Present() || q.category.Present() || q.tag.Present() || page.Present()) ==>
      var all := FeaturedCandidates(posts, now);
      |r| == (if |all| < FeaturedCount then |all| else FeaturedCount) && r == all[..|r|]
    ensures |r| <= FeaturedCount
    ensures forall p | p in r :: p in posts && Visible(p, now) && p.isFeatured
    ensures SortedBy(r, NewerPublished)
  {
    if q.search.Present() || q.category.Present() || q.tag.Present() || page.Present() then []
    else
      var all := FeaturedCandidates(posts, now);
      SortedSlice(all, 0, |Take(all, FeaturedCount)|, NewerPublished);
      Take(all, FeaturedCount)
  }

  /** On the bare home page, a visible featured post left out of the strip
      means the strip is full of posts published no earlier than it. */
  lemma FeaturedStripIsLatest(posts: seq<Post>, now: Timestamp, p: Post)
    requires p in posts && Visible(p, now) && p.isFeatured
    requires p !in FeaturedStrip(posts, PublicQuery(Missing, Missing, Missing), Missing, now)
    ensures |FeaturedStrip(posts, PublicQuery(Missing, Missing, Missing), Missing, now)| == FeaturedCount
    ensures forall x | x in FeaturedStrip(posts, PublicQuery(Missing, Missing, Missing), Missing, now) ::
      NewerPublished(x, p)
  {
    TakeKeepsTop(FeaturedCandidates(posts, now), FeaturedCount, NewerPublished, p);
  }

  function VisibleInCategory(id: nat, now: Timestamp): Post -> bool {
    (p: Post) => Visible(p, now) && p.categoryId == id
  }

  function VisibleWithTag(id: nat, now: Timestamp): Post -> bool {
    (p: Post) => Visible(p, now) && id in p.tagIds
  }

  /** withCount('posts') restricted to visible posts, for a category. */
  function CategoryPostCount(posts: seq<Post>, id: nat, now: Timestamp): (n: nat)
    ensures n == |Filter(posts, VisibleInCategory(id, now))|
    ensures n <= |PublishedScope(posts, now)|
    ensures n > 0 <==> exists p | p in posts :: Visible(p, now) && p.categoryId == id
  {
    FilterMonotone(posts, VisibleInCategory(id, now), (p: Post) => Visible(p, now));
    var r := Filter(posts, VisibleInCategory(id, now));
    assert |r| > 0 ==> r[0] in r;
    |r|
  }

  /** withCount('posts') restricted to visible posts, for a tag. */
  function TagPostCount(posts: seq<Post>, id: nat, now: Timestamp): (n: nat)
    ensures n == |Filter(posts, VisibleWithTag(id, now))|
    ensures n <= |PublishedScope(posts, now)|
    ensures n > 0 <==> exists p | p in posts :: Visible(p, now) && id in p.tagIds
  {
    FilterMonotone(posts, VisibleWithTag(id, now), (p: Post) => Visible(p, now));
    var r := Filter(posts, VisibleWithTag(id, now));
    assert |r| > 0 ==> r[0] in r;
    |r|
  }

  /** With the category's slug unique among categories, its count is the
      total of the home listing filtered by that slug. */
  lemma CategoryCountMatchesListing(posts: seq<Post>, categories: seq<Category>, tags: seq<Tag>,
                                    c: Category, now: Timestamp)
    requires c in categories && !IsBlank(c.slug)
    requires forall k | k in categories && k.slug == c.slug :: k == c
    ensures CategoryPostCount(posts, c.id, now) ==
            |PublicResults(posts, categories, tags, PublicQuery(Missing, Given(c.slug), Missing), now)|
  {
    var q := PublicQuery(Missing, Given(c.slug), Missing);
    forall p | p in posts ensures PublicFilter(q, categories, tags, now)(p) == VisibleInCategory(c.id, now)(p) {
      assert p.categoryId == c.id ==> InCategoryWithSlug(p, categories, c.slug);
    }
    FilterExt(posts, PublicFilter(q, categories, tags, now), VisibleInCategory(c.id, now));
  }

  /** With the tag's slug unique among tags, its count is the total of the
      home listing filtered by that slug. */
  lemma TagCountMatchesListing(posts: seq<Post>, categories: seq<Category>, tags: seq<Tag>,
                               g: Tag, now: Timestamp)
    requires g in tags && !IsBlank(g.slug)
    requires forall k | k in tags && k.slug == g.slug :: k == g
    ensures TagPostCount(posts, g.id, now) ==
            |PublicResults(posts, categories, tags, PublicQuery(Missing, Missing, Given(g.slug)), now)|
  {
    var q := PublicQuery(Missing, Missing, Given(g.slug));
    forall p | p in posts ensures PublicFilter(q, categories, tags, now)(p) == VisibleWithTag(g.id, now)(p) {
      assert g.id in p.tagIds ==> HasTagWithSlug(p, tags, g.slug);
    }
    FilterExt(posts, PublicFilter(q, categories, tags, now), VisibleWithTag(g.id, now));
  }

  datatype CategoryFacet = CategoryFacet(category: Category, postsCount: nat)

  datatype TagFacet = TagFacet(tag: Tag, postsCount: nat)

  /** The categories a facet list shows, in order. */
  function FacetCategories(facets: seq<CategoryFacet>): (r: seq<Category>)
    ensures |r| == |facets|
    ensures forall i | 0 <= i < |facets| :: r[i] == facets[i].category
  {
    if facets == [] then [] else [facets[0].category] + FacetCategories(facets[1..])
  }

  /** The tags a facet list shows, in order. */
  function FacetTags(facets: seq<TagFacet>): (r: seq<Tag>)
    ensures |r| == |facets|
    ensures forall i | 0 <= i < |facets| :: r[i] == facets[i].tag
  {
    if facets == [] then [] else [facets[0].tag] + FacetTags(facets[1..])
  }

  /** An active category with at least one visible post gets a facet. */
  function ListedCategory(posts: seq<Post>, now: Timestamp): Category -> bool {
    (c: Category) => c.isActive && CategoryPostCount(posts, c.id, now) > 0
  }

  /** A tag with at least one visible post gets a facet. */
  function UsedTag(posts: seq<Post>, now: Timestamp): Tag -> bool {
    (t: Tag) => TagPostCount(posts, t.id, now) > 0
  }

  /** Active categories having visible posts, with their counts, in table order. */
  function CountedCategories(categories: seq<Category>, posts: seq<Post>, now: Timestamp): (r: seq<CategoryFacet>)
    ensures FacetCategories(r) == Filter(categories, ListedCategory(posts, now))
    ensures forall f | f in r ::
      f.category in categories && f.category.isActive
      && f.postsCount == CategoryPostCount(posts, f.category.id, now) && f.postsCount > 0
    ensures forall c | c in categories && c.isActive && CategoryPostCount(posts, c.id, now) > 0 ::
      CategoryFacet(c, CategoryPostCount(posts, c.id, now)) in r
  {
    if categories == [] then []
    else
      var c := categories[0];
      var n := CategoryPostCount(posts, c.id, now);
      var rest := CountedCategories(categories[1..], posts, now);
      assert forall k | k in categories :: k == c || k in categories[1..];
      assert FacetCategories([CategoryFacet(c, n)] + rest) == [c] + FacetCategories(rest);
      if c.isActive && n > 0 then [CategoryFacet(c, n)] + rest else rest
  }

  /** orderBy('name'), compared code point by code point. */
  predicate NameOrder(a: CategoryFacet, b: CategoryFacet) {
    LexLe(a.category.name, b.category.name)
  }

  lemma NameOrderIsPreorder()
    ensures TotalPreorder(NameOrder)
  {
    forall a, b ensures NameOrder(a, b) || NameOrder(b, a) {
      LexLeTotal(a.category.name, b.category.name);
    }
    forall a, b, c | NameOrder(a, b) && NameOrder(b, c) ensures NameOrder(a, c) {
      LexLeTransitive(a.category.name, b.category.name, c.category.name);
    }
  }

  /** The category facets: every active category with at least one visible
      post, with that count, ordered by name. */
  function CategoryFacets(categories: seq<Category>, posts: seq<Post>, now: Timestamp): (r: seq<CategoryFacet>)
    ensures forall f | f in r ::
      f.category in categories && f.category.isActive
      && f.postsCount == CategoryPostCount(posts, f.category.id, now) && f.postsCount > 0
    ensures forall c | c in categories && c.isActive && CategoryPostCount(posts, c.id, now) > 0 ::
      CategoryFacet(c, CategoryPostCount(posts, c.id, now)) in r
    ensures multiset(r) == multiset(CountedCategories(categories, posts, now))
    ensures SortedBy(r, NameOrder)
  {
    NameOrderIsPreorder();
    SortBySorted(CountedCategories(categories, posts, now), NameOrder);
    SortBy(CountedCategories(categories, posts, now), NameOrder)
  }

  /** Tags having visible posts, with their counts, in table order. */
  function CountedTags(tags: seq<Tag>, posts: seq<Post>, now: Timestamp): (r: seq<TagFacet>)
    ensures FacetTags(r) == Filter(tags, UsedTag(posts, now))
    ensures forall f | f in r ::
      f.tag in tags && f.postsCount == TagPostCount(posts, f.tag.id, now) && f.postsCount > 0
    ensures forall t | t in tags && TagPostCount(posts, t.id, now) > 0 ::
      TagFacet(t, TagPostCount(posts, t.id, now)) in r
  {
    if tags == [] then []
    else
      var t := tags[0];
      var n := TagPostCount(posts, t.id, now);
      var rest := CountedTags(tags[1..], posts, now);
      assert forall k | k in tags :: k == t || k in tags[1..];
      assert FacetTags([TagFacet(t, n)] + rest) == [t] + FacetTags(rest);
      if n > 0 then [TagFacet(t, n)] + rest else rest
  }

  /** orderByDesc('posts_count'). */
  predicate MoreUsed(a: TagFacet, b: TagFacet) {
    a.postsCount >= b.postsCount
  }

  lemma MoreUsedIsPreorder()
    ensures TotalPreorder(MoreUsed)
  {
  }

  function RankedTags(tags: seq<Tag>, posts: seq<Post>, now: Timestamp): (r: seq<TagFacet>)
    ensures forall f :: f in r <==> f in CountedTags(tags, posts, now)
    ensures multiset(r) == multiset(CountedTags(tags, posts, now))
    ensures SortedBy(r, MoreUsed)
  {
    MoreUsedIsPreorder();
    SortBySorted(CountedTags(tags, posts, now), MoreUsed);
    SortBy(CountedTags(tags, posts, now), MoreUsed)
  }

  /** The popular tags: at most 20 tags, each with at least one visible post
      and that count, most used first. */
  function PopularTags(tags: seq<Tag>, posts: seq<Post>, now: Timestamp): (r: seq<TagFacet>)
    ensures |r| <= PopularTagCount
    ensures var all := RankedTags(tags, posts, now);
      |r| == (if |all| < PopularTagCount then |all| else PopularTagCount) && r == all[..|r|]
    ensures forall f | f in r ::
      f.tag in tags && f.postsCount == TagPostCount(posts, f.tag.id, now) && f.postsCount >= 1
    ensures SortedBy(r, MoreUsed)
  {
    var all := RankedTags(tags, posts, now);
    SortedSlice(all, 0, |Take(all, PopularTagCount)|, MoreUsed);
    Take(all, PopularTagCount)
  }

  /** A used tag missing from the popular list means the list is full of
      tags used at least as often. */
  lemma PopularTagsAreTheMostUsed(tags: seq<Tag>, posts: seq<Post>, now: Timestamp, t: Tag)
    requires t in tags && TagPostCount(posts, t.id, now) > 0
    requires TagFacet(t, TagPostCount(posts, t.id, now)) !in PopularTags(tags, posts, now)
    ensures |PopularTags(tags, posts, now)| == PopularTagCount
    ensures forall f | f in PopularTags(tags, posts, now) :: f.postsCount >= TagPostCount(posts, t.id, now)
  {
    var x := TagFacet(t, TagPostCount(posts, t.id, now));
    TakeKeepsTop(RankedTags(tags, posts, now), PopularTagCount, MoreUsed, x);
  }

  /** The related-posts condition: visible, not the post itself, and in the
      same category or sharing a tag. */
  predicate RelatedTo(x: Post, post: Post, now: Timestamp) {
    && Visible(x, now)
    && x.id != post.id
    && (x.categoryId == post.categoryId || x.tagIds * post.tagIds != {})
  }

  function RelatedFilter(post: Post, now: Timestamp): Post -> bool {
    (x: Post) => RelatedTo(x, post, now)
  }

  function RelatedCandidates(posts: seq<Post>, post: Post, now: Timestamp): (r: seq<Post>)
    ensures forall x :: x in r <==> x in posts && RelatedTo(x, post, now)
    ensures multiset(r) == multiset(Filter(posts, RelatedFilter(post, now)))
    ensures SortedBy(r, NewerPublished)
  {
    NewerPublishedIsPreorder();
    SortBySorted(Filter(posts, RelatedFilter(post, now)), NewerPublished);
    SortBy(Filter(posts, RelatedFilter(post, now)), NewerPublished)
  }

  /** Related posts: at most four visible posts other than this one, each in
      its category or sharing a tag with it, latest publication first. */
  function RelatedPosts(posts: seq<Post>, post: Post, now: Timestamp): (r: seq<Post>)
    ensures |r| <= RelatedCount
    ensures var all := RelatedCandidates(posts, post, now);
      |r| == (if |all| < RelatedCount then |all| else RelatedCount) && r == all[..|r|]
    ensures forall x | x in r :: x in posts && Visible(x, now) && x.id != post.id
    ensures forall x | x in r :: x.categoryId == post.categoryId || x.tagIds * post.tagIds != {}
    ensures SortedBy(r, NewerPublished)
  {
    var all := RelatedCandidates(posts, post, now);
    SortedSlice(all, 0, |Take(all, RelatedCount)|, NewerPublished);
    Take(all, RelatedCount)
  }

  /** A related candidate left out means four posts published no earlier
      than it were listed. */
  lemma RelatedPostsAreLatest(posts: seq<Post>, post: Post, now: Timestamp, x: Post)
    requires x in posts && RelatedTo(x, post, now)
    requires x !in RelatedPosts(posts, post, now)
    ensures |RelatedPosts(posts, post, now)| == RelatedCount
    ensures forall y | y in RelatedPosts(posts, post, now) :: NewerPublished(y, x)
  {
    TakeKeepsTop(RelatedCandidates(posts, post, now), RelatedCount, NewerPublished, x);
  }

  /** latest(): newer comments first. */
  predicate NewerComment(a: Comment, b: Comment) {
    a.createdAt >= b.createdAt
  }

  lemma NewerCommentIsPreorder()
    ensures TotalPreorder(NewerComment)
  {
  }

  /** One top-level comment with its direct approved replies. */
  datatype CommentNode = CommentNode(comment: Comment, replies: seq<Comment>)

  predicate IsApprovedRoot(c: Comment, post: Post) {
    c.postId == post.id && c.status == Approved && c.parentId.None?
  }

  predicate IsApprovedReply(x: Comment, parent: Comment) {
    x.parentId == Some(parent.id) && x.status == Approved
  }

  function RootFilter(post: Post): Comment -> bool {
    (c: Comment) => IsApprovedRoot(c, post)
  }

  function ReplyFilter(parent: Comment): Comment -> bool {
    (x: Comment) => IsApprovedReply(x, parent)
  }

  /** approvedComments()->whereNull('parent_id')->latest(). */
  function RootComments(comments: seq<Comment>, post: Post): (r: seq<Comment>)
    ensures forall c :: c in r <==> c in comments && IsApprovedRoot(c, post)
    ensures multiset(r) == multiset(Filter(comments, RootFilter(post)))
    ensures SortedBy(r, NewerComment)
  {
    NewerCommentIsPreorder();
    SortBySorted(Filter(comments, RootFilter(post)), NewerComment);
    SortBy(Filter(comments, RootFilter(post)), NewerComment)
  }

  /** replies()->approved()->latest() for one comment. */
  function ApprovedReplies(comments: seq<Comment>, parent: Comment): (r: seq<Comment>)
    ensures forall x :: x in r <==> x in comments && IsApprovedReply(x, parent)
    ensures multiset(r) == multiset(Filter(comments, ReplyFilter(parent)))
    ensures SortedBy(r, NewerComment)
  {
    NewerCommentIsPreorder();
    SortBySorted(Filter(comments, ReplyFilter(parent)), NewerComment);
    SortBy(Filter(comments, ReplyFilter(parent)), NewerComment)
  }

  /** Attach to each root its replies. */
  function Nodes(roots: seq<Comment>, comments: seq<Comment>): (r: seq<CommentNode>)
    ensures Heads(r) == roots
    ensures forall n | n in r :: n.comment in roots && n.replies == ApprovedReplies(comments, n.comment)
  {
    if roots == [] then []
    else
      var rest := Nodes(roots[1..], comments);
      var r := [CommentNode(roots[0], ApprovedReplies(comments, roots[0]))] + rest;
      assert r[1..] == rest;
      r
  }

  /** The top-level comments of a tree, in order. */
  function Heads(nodes: seq<CommentNode>): (r: seq<Comment>)
    ensures |r| == |nodes|
    ensures forall i | 0 <= i < |nodes| :: r[i] == nodes[i].comment
  {
    if nodes == [] then [] else [nodes[0].comment] + Heads(nodes[1..])
  }

  /** The comment tree the post page loads: the approved top-level comments
      of the post, newest first, each with its approved direct replies,
      newest first. */
  function CommentTree(comments: seq<Comment>, post: Post): (r: seq<CommentNode>)
    ensures Heads(r) == RootComments(comments, post)
    ensures forall c :: c in Heads(r) <==> c in comments && IsApprovedRoot(c, post)
    ensures SortedBy(Heads(r), NewerComment)
    ensures forall n | n in r :: n.comment in comments && IsApprovedRoot(n.comment, post)
    ensures forall n | n in r :: forall x :: x in n.replies <==> x in comments && IsApprovedReply(x, n.comment)
    ensures forall n | n in r :: SortedBy(n.replies, NewerComment)
    ensures forall n | n in r :: n.replies == ApprovedReplies(comments, n.comment)
  {
    var roots := RootComments(comments, post);
    Nodes(roots, comments)
  }

  /** Only two levels are loaded: a reply to a reply is neither a node of
      the tree nor among any node's replies. */
  lemma DeepRepliesNotLoaded(comments: seq<Comment>, post: Post, y: Comment, x: Comment)
    requires CommentIdsIncreasing(comments)
    requires y in comments && y.parentId.Some? && x.parentId == Some(y.id)
    ensures x !in Heads(CommentTree(comments, post))
    ensures forall n | n in CommentTree(comments, post) :: x !in n.replies
  {
    var tree := CommentTree(comments, post);
    forall n | n in tree ensures x !in n.replies {
      CommentIdsDetermineRows(comments);
      assert n.comment != y;
    }
  }

  /** What the post page shows. */
  datatype PostPage = PostPage(post: Post, comments: seq<CommentNode>, related: seq<Post>)

  /** show(): only a published post is shown to a guest, and its published_at
      is not checked. */
  predicate CanView(p: Post, authenticated: bool) {
    p.status == Published || authenticated
  }

  /** GET /blog/{slug}: bind the post by slug; refuse a guest a post that is
      not published; count the view; load the comment tree and the related
      posts. None is the not-found response. */
  method Show(db: BlogStore, slug: string, authenticated: bool, now: Timestamp) returns (r: Option<PostPage>)
    requires db.Valid()
    modifies db
    ensures db.Valid()
    ensures r.Some? <==> FindBySlug(old(db.posts), slug).Some? && CanView(FindBySlug(old(db.posts), slug).value, authenticated)
    ensures r.None? ==> db.posts == old(db.posts)
    ensures r.Some? ==>
      var p := FindBySlug(old(db.posts), slug).value;
      && r.value.post == IncrementViews(p)
      && r.value.post.viewsCount == p.viewsCount + 1
      && (exists i | 0 <= i < |old(db.posts)| :: old(db.posts)[i] == p && db.posts == old(db.posts)[i := r.value.post])
      && r.value.comments == CommentTree(db.comments, r.value.post)
      && r.value.related == RelatedPosts(db.posts, r.value.post, now)
    ensures db.users == old(db.users) && db.categories == old(db.categories) && db.tags == old(db.tags)
    ensures db.comments == old(db.comments) && db.nextPostId == old(db.nextPostId)
  {
    var bound := FindBySlug(db.posts, slug);
    if bound.None? || !CanView(bound.value, authenticated) {
      return None;
    }
    var p := bound.value;
    PostIdsDetermineRows(db.posts);
    assert p.id in PostIds(db.posts);
    var counted := db.IncrementPostViews(p.id);
    var viewed := IncrementViews(p);
    r := Some(PostPage(viewed, CommentTree(db.comments, viewed), RelatedPosts(db.posts, viewed, now)));
  }

  /** A guest can open a published post whose published_at is still in the
      future or null, although the listing does not show it. */
  lemma GuestSeesUnlistedPublished(p: Post, now: Timestamp)
    requires p.status == Published && (p.publishedAt.None? || p.publishedAt.value > now)
    ensures CanView(p, false) && !Visible(p, now)
  {
  }
}
