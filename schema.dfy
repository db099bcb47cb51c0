/** Record shapes of the posts and comments tables and of the rows they
    reference (categories, tags, users), with the column defaults. */
module Schema {

  import opened Base
  import opened Seqs

  /** posts.status: enum('draft', 'published', 'scheduled'), default 'draft'. */
  datatype PostStatus = Draft | Published | Scheduled

  /** comments.status: enum('pending', 'approved', 'spam', 'rejected'), default 'pending'. */
  datatype CommentStatus = Pending | Approved | Spam | Rejected

  const DefaultPostStatus: PostStatus := Draft
  const DefaultIsFeatured: bool := false
  const DefaultAllowComments: bool := true

  /** The value stored in the status column. */
  function StatusName(s: PostStatus): string {
    match s
    case Draft => "draft"
    case Published => "published"
    case Scheduled => "scheduled"
  }

  /** The enum value a status string denotes, if any. */
  function ParseStatus(s: string): (r: Option<PostStatus>)
    ensures r.Some? ==> StatusName(r.value) == s
    ensures r.None? ==> forall st: PostStatus :: StatusName(st) != s
  {
    if s == "draft" then Some(Draft)
    else if s == "published" then Some(Published)
    else if s == "scheduled" then Some(Scheduled)
    else None
  }

  /** SEO fields kept in the JSON meta_data column. */
  datatype MetaData = MetaData(
    metaTitle: Field<string>,
    metaDescription: Field<string>,
    metaKeywords: Field<string>,
    ogTitle: Field<string>,
    ogDescription: Field<string>,
    twitterTitle: Field<string>,
    twitterDescription: Field<string>)

  datatype Category = Category(id: nat, name: string, slug: string, isActive: bool)

  datatype Tag = Tag(id: nat, name: string, slug: string)

  datatype User = User(id: nat, name: string)

  /** A row of posts. Title, slug and content are NOT NULL; excerpt,
      featured_image, published_at, scheduled_at, reading_time and meta_data
      are nullable. `tagIds` is the post's set of post_tag rows. */
  datatype Post = Post(
    id: nat,
    title: string,
    slug: string,
    excerpt: Option<string>,
    content: string,
    featuredImage: Option<string>,
    categoryId: nat,
    userId: nat,
    status: PostStatus,
    publishedAt: Option<Timestamp>,
    scheduledAt: Option<Timestamp>,
    isFeatured: bool,
    allowComments: bool,
    viewsCount: nat,
    commentsCount: nat,
    readingTime: Option<int>,
    metaData: Option<MetaData>,
    createdAt: Timestamp,
    tagIds: set<nat>)

  /** A row of comments. Content is NOT NULL; user_id, parent_id and the
      guest author fields are nullable. */
  datatype Comment = Comment(
    id: nat,
    postId: nat,
    userId: Option<nat>,
    parentId: Option<nat>,
    authorName: Option<string>,
    authorEmail: Option<string>,
    authorWebsite: Option<string>,
    content: string,
    status: CommentStatus,
    ipAddress: Option<string>,
    userAgent: Option<string>,
    createdAt: Timestamp)

  /** The exceptions the database raises on a rejected write, and a missing row. */
  datatype DbError =
    | NotNullViolation(column: string)
    | UniqueViolation(column: string)
    | ForeignKeyViolation(column: string)
    | NotFound

  function PostKey(p: Post): nat { p.id }
  function CommentKey(c: Comment): nat { c.id }
  function CategoryKey(c: Category): nat { c.id }
  function TagKey(t: Tag): nat { t.id }
  function UserKey(u: User): nat { u.id }
  function SlugKey(p: Post): string { p.slug }

  /** The primary keys of a table. */
  function PostIds(posts: seq<Post>): (r: set<nat>)
    ensures forall p | p in posts :: p.id in r
  {
    Keys(posts, PostKey)
  }

  lemma PostIdWitness(posts: seq<Post>, k: nat)
    requires k in PostIds(posts)
    ensures exists p | p in posts :: p.id == k
  {
    KeysWitness(posts, PostKey, k);
  }

  /** The primary keys of a table. */
  function CommentIds(comments: seq<Comment>): (r: set<nat>)
    ensures forall c | c in comments :: c.id in r
  {
    Keys(comments, CommentKey)
  }

  lemma CommentIdWitness(comments: seq<Comment>, k: nat)
    requires k in CommentIds(comments)
    ensures exists c | c in comments :: c.id == k
  {
    KeysWitness(comments, CommentKey, k);
  }

  /** The primary keys of a table. */
  function CategoryIds(categories: seq<Category>): (r: set<nat>)
    ensures forall c | c in categories :: c.id in r
  {
    Keys(categories, CategoryKey)
  }

  lemma CategoryIdWitness(categories: seq<Category>, k: nat)
    requires k in CategoryIds(categories)
    ensures exists c | c in categories :: c.id == k
  {
    KeysWitness(categories, CategoryKey, k);
  }

  /** The primary keys of a table. */
  function TagIds(tags: seq<Tag>): (r: set<nat>)
    ensures forall t | t in tags :: t.id in r
  {
    Keys(tags, TagKey)
  }

  /** The primary keys of a table. */
  function UserIds(users: seq<User>): (r: set<nat>)
    ensures forall u | u in users :: u.id in r
  {
    Keys(users, UserKey)
  }

  lemma UserIdWitness(users: seq<User>, k: nat)
    requires k in UserIds(users)
    ensures exists u | u in users :: u.id == k
  {
    KeysWitness(users, UserKey, k);
  }

  function Slugs(posts: seq<Post>): (r: set<string>)
    ensures forall p | p in posts :: p.slug in r
  {
    Keys(posts, SlugKey)
  }

  /** posts.slug is UNIQUE. */
  ghost predicate UniqueSlugs(posts: seq<Post>) {
    forall p, q | p in posts && q in posts && p.slug == q.slug :: p == q
  }

  predicate PostIdBefore(a: Post, b: Post) {
    a.id < b.id
  }

  predicate CommentIdBefore(a: Comment, b: Comment) {
    a.id < b.id
  }

  /** Auto-increment primary keys: rows are kept in strictly increasing id order. */
  ghost predicate PostIdsIncreasing(posts: seq<Post>) {
    SortedBy(posts, PostIdBefore)
  }

  ghost predicate CommentIdsIncreasing(comments: seq<Comment>) {
    SortedBy(comments, CommentIdBefore)
  }

  /** Increasing ids are unique ids: a row is determined by its id. */
  lemma PostIdsDetermineRows(posts: seq<Post>)
    requires PostIdsIncreasing(posts)
    ensures forall p, q | p in posts && q in posts && p.id == q.id :: p == q
  {
    forall p, q | p in posts && q in posts && p != q ensures p.id != q.id {
      var i :| 0 <= i < |posts| && posts[i] == p;
      var j :| 0 <= j < |posts| && posts[j] == q;
      if i < j {
        assert PostIdBefore(posts[i], posts[j]);
      } else {
        assert PostIdBefore(posts[j], posts[i]);
      }
    }
  }

  /** Increasing ids leave no row twice in the table. */
  lemma PostIdsDistinct(posts: seq<Post>)
    requires PostIdsIncreasing(posts)
    ensures Distinct(posts)
  {
    forall i, j | 0 <= i < j < |posts| ensures posts[i] != posts[j] {
      assert PostIdBefore(posts[i], posts[j]);
    }
  }

  lemma CommentIdsDetermineRows(comments: seq<Comment>)
    requires CommentIdsIncreasing(comments)
    ensures forall a, b | a in comments && b in comments && a.id == b.id :: a == b
  {
    forall a, b | a in comments && b in comments && a != b ensures a.id != b.id {
      var i :| 0 <= i < |comments| && comments[i] == a;
      var j :| 0 <= j < |comments| && comments[j] == b;
      if i < j {
        assert CommentIdBefore(comments[i], comments[j]);
      } else {
        assert CommentIdBefore(comments[j], comments[i]);
      }
    }
  }
}
