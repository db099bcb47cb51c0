/** The database as an object: the five tables the core touches, the
    constraints the two migrations declare (primary keys, the unique slug,
    foreign keys), and the writes the core performs, including the
    ON DELETE CASCADE chains category/user -> posts -> comments -> replies. */
module Store {

  import opened Base
  import opened Schema
  import opened Seqs
  import opened PostModel

  /** The rows a set of ids does not name. */
  function KeepPost(ids: set<nat>): Post -> bool {
    (p: Post) => p.id !in ids
  }

  function KeepComment(ids: set<nat>): Comment -> bool {
    (c: Comment) => c.id !in ids
  }

  /** DELETE FROM posts WHERE id IN ids. */
  function DropPosts(posts: seq<Post>, ids: set<nat>): (r: seq<Post>)
    ensures forall p :: p in r <==> p in posts && p.id !in ids
  {
    Filter(posts, KeepPost(ids))
  }

  /** DELETE FROM comments WHERE id IN ids. */
  function DropComments(comments: seq<Comment>, ids: set<nat>): (r: seq<Comment>)
    ensures forall c :: c in r <==> c in comments && c.id !in ids
  {
    Filter(comments, KeepComment(ids))
  }

  /** DELETE FROM users WHERE id = id. */
  function DropUser(users: seq<User>, id: nat): (r: seq<User>)
    ensures forall u :: u in r <==> u in users && u.id != id
  {
    Filter(users, (u: User) => u.id != id)
  }

  /** DELETE FROM categories WHERE id = id. */
  function DropCategory(categories: seq<Category>, id: nat): (r: seq<Category>)
    ensures forall k :: k in r <==> k in categories && k.id != id
  {
    Filter(categories, (k: Category) => k.id != id)
  }

  /** The referential constraints of one post row. */
  predicate PostRefsOk(p: Post, categories: seq<Category>, users: seq<User>, tags: seq<Tag>) {
    && p.categoryId in CategoryIds(categories)
    && p.userId in UserIds(users)
    && p.tagIds <= TagIds(tags)
  }

  /** The referential constraints of one comment row. A reply is inserted after
      its parent, so a parent's id is smaller than its replies'. */
  predicate CommentRefsOk(c: Comment, posts: seq<Post>, users: seq<User>, comments: seq<Comment>) {
    && c.postId in PostIds(posts)
    && (c.userId.Some? ==> c.userId.value in UserIds(users))
    && (c.parentId.Some? ==> c.parentId.value in CommentIds(comments) && c.parentId.value < c.id)
  }

  /** Every constraint of the schema, over a snapshot of the tables. */
  ghost predicate Consistent(users: seq<User>, categories: seq<Category>, tags: seq<Tag>,
                             posts: seq<Post>, comments: seq<Comment>, nextPostId: nat) {
    && PostIdsIncreasing(posts)
    && CommentIdsIncreasing(comments)
    && UniqueSlugs(posts)
    && (forall p | p in posts :: p.id < nextPostId)
    && (forall p | p in posts :: PostRefsOk(p, categories, users, tags))
    && (forall c | c in comments :: CommentRefsOk(c, posts, users, comments))
  }

  /** Every comment a cascade deleted was one of its roots or a reply to a
      comment it deleted. */
  ghost predicate Justified(all: seq<Comment>, removed: set<nat>, roots: set<nat>) {
    forall c | c in all && c.id in removed :: c.id in roots || (c.parentId.Some? && c.parentId.value in removed)
  }

  /** Nothing left is a root or a reply to a deleted comment. */
  ghost predicate Closed(left: seq<Comment>, removed: set<nat>, roots: set<nat>) {
    forall c | c in left :: c.id !in roots && (c.parentId.Some? ==> c.parentId.value !in removed)
  }

  /** SELECT id FROM posts WHERE doomed. */
  function PostIdsWhere(posts: seq<Post>, doomed: Post -> bool): (r: set<nat>)
    ensures forall p | p in posts && doomed(p) :: p.id in r
  {
    set p | p in posts && doomed(p) :: p.id
  }

  /** SELECT id FROM comments WHERE doomed. */
  function CommentIdsWhere(comments: seq<Comment>, doomed: Comment -> bool): (r: set<nat>)
    ensures forall c | c in comments && doomed(c) :: c.id in r
  {
    set c | c in comments && doomed(c) :: c.id
  }

  function InCategory(id: nat): Post -> bool {
    (p: Post) => p.categoryId == id
  }

  function ByAuthor(id: nat): Post -> bool {
    (p: Post) => p.userId == id
  }

  function OnPosts(ids: set<nat>): Comment -> bool {
    (c: Comment) => c.postId in ids
  }

  function OnPostsOrBy(ids: set<nat>, user: nat): Comment -> bool {
    (c: Comment) => c.postId in ids || c.userId == Some(user)
  }

  /** Position of the row with primary key id. */
  function IndexOfPost(posts: seq<Post>, id: nat): (r: Option<nat>)
    ensures r.Some? ==> r.value < |posts| && posts[r.value].id == id
    ensures r.None? ==> id !in PostIds(posts)
  {
    if posts == [] then None
    else if posts[0].id == id then Some(0)
    else match IndexOfPost(posts[1..], id)
      case None => None
      case Some(i) => Some(i + 1)
  }

  /** Whether another row than position i already holds slug. */
  predicate SlugTakenByOther(posts: seq<Post>, i: nat, slug: string) {
    exists j | 0 <= j < |posts| :: j != i && posts[j].slug == slug
  }

  /** Whether a row other than the one with primary key id holds slug: the
      UNIQUE check an UPDATE of that row runs. */
  predicate SlugHeldByOther(posts: seq<Post>, id: nat, slug: string) {
    exists q | q in posts :: q.id != id && q.slug == slug
  }

  /** With unique ids, "another position" and "another id" are the same. */
  lemma SlugTakenByOtherRow(posts: seq<Post>, i: nat, slug: string)
    requires PostIdsIncreasing(posts) && i < |posts|
    ensures SlugTakenByOther(posts, i, slug) <==> SlugHeldByOther(posts, posts[i].id, slug)
  {
    PostIdsDetermineRows(posts);
    if SlugTakenByOther(posts, i, slug) {
      var j :| 0 <= j < |posts| && j != i && posts[j].slug == slug;
      assert PostIdBefore(posts[i], posts[j]) || PostIdBefore(posts[j], posts[i]);
      assert posts[j] in posts;
    }
    if SlugHeldByOther(posts, posts[i].id, slug) {
      var q :| q in posts && q.id != posts[i].id && q.slug == slug;
      var j :| 0 <= j < |posts| && posts[j] == q;
      assert j != i;
    }
  }

  class BlogStore {
    var users: seq<User>
    var categories: seq<Category>
    var tags: seq<Tag>
    var posts: seq<Post>
    var comments: seq<Comment>
    /** The posts table's auto-increment counter. */
    var nextPostId: nat

    ghost predicate Valid()
      reads this
    {
      Consistent(users, categories, tags, posts, comments, nextPostId)
    }

    constructor (users: seq<User>, categories: seq<Category>, tags: seq<Tag>,
                 posts: seq<Post>, comments: seq<Comment>, nextPostId: nat)
      requires Consistent(users, categories, tags, posts, comments, nextPostId)
      ensures Valid()
      ensures this.users == users && this.categories == categories && this.tags == tags
      ensures this.posts == posts && this.comments == comments && this.nextPostId == nextPostId
    {
      this.users := users;
      this.categories := categories;
      this.tags := tags;
      this.posts := posts;
      this.comments := comments;
      this.nextPostId := nextPostId;
    }

    /** INSERT INTO posts (and its post_tag rows): the row NewPost builds under
        the next id, refused on a NOT NULL, UNIQUE or foreign-key violation. */
    method CreatePost(data: PostData, now: Timestamp,
                      slugify: string -> string, wordCount: string -> nat) returns (r: Result<Post, DbError>)
      requires Valid()
      modifies this
      ensures Valid()
      ensures r.Ok? <==>
        && NewPost(old(nextPostId), data, now, slugify, wordCount).Ok?
        && var p := NewPost(old(nextPostId), data, now, slugify, wordCount).value;
           p.slug !in Slugs(old(posts)) && PostRefsOk(p, categories, users, tags)
      ensures r.Ok? ==> r == NewPost(old(nextPostId), data, now, slugify, wordCount)
      ensures r.Ok? ==> posts == old(posts) + [r.value] && nextPostId == old(nextPostId) + 1
      ensures r.Err? ==> posts == old(posts) && nextPostId == old(nextPostId)
      ensures users == old(users) && categories == old(categories) && tags == old(tags)
      ensures comments == old(comments)
    {
      r := NewPost(nextPostId, data, now, slugify, wordCount);
      if r.Err? {
        return;
      }
      var p := r.value;
      if p.slug in Slugs(posts) {
        r := Err(UniqueViolation("slug"));
      } else if p.categoryId !in CategoryIds(categories) {
        r := Err(ForeignKeyViolation("category_id"));
      } else if p.userId !in UserIds(users) {
        r := Err(ForeignKeyViolation("user_id"));
      } else if !(p.tagIds <= TagIds(tags)) {
        r := Err(ForeignKeyViolation("tag_id"));
      } else {
        AppendKeepsConsistency(users, categories, tags, posts, comments, nextPostId, p);
        posts := posts + [p];
        nextPostId := nextPostId + 1;
      }
    }

    /** UPDATE posts (and sync post_tag) for the row with primary key id: the
        row ApplyUpdate builds, refused on a NOT NULL, UNIQUE or foreign-key
        violation. */
    method UpdatePost(id: nat, data: PostData,
                      slugify: string -> string, wordCount: string -> nat) returns (r: Result<Post, DbError>)
      requires Valid()
      modifies this
      ensures Valid()
      ensures id !in PostIds(old(posts)) ==> r == Err(NotFound)
      ensures r.Ok? <==>
        && IndexOfPost(old(posts), id).Some?
        && var cur := old(posts)[IndexOfPost(old(posts), id).value];
           && ApplyUpdate(cur, data, slugify, wordCount).Ok?
           && var p := ApplyUpdate(cur, data, slugify, wordCount).value;
              !SlugHeldByOther(old(posts), id, p.slug) && PostRefsOk(p, categories, users, tags)
      ensures r.Ok? ==> exists i | 0 <= i < |old(posts)| ::
        && old(posts)[i].id == id
        && ApplyUpdate(old(posts)[i], data, slugify, wordCount) == r
        && posts == old(posts)[i := r.value]
      ensures r.Err? ==> posts == old(posts)
      ensures users == old(users) && categories == old(categories) && tags == old(tags)
      ensures comments == old(comments) && nextPostId == old(nextPostId)
    {
      var idx := IndexOfPost(posts, id);
      if idx.None? {
        return Err(NotFound);
      }
      var i := idx.value;
      r := ApplyUpdate(posts[i], data, slugify, wordCount);
      if r.Err? {
        return;
      }
      var p := r.value;
      SlugTakenByOtherRow(posts, i, p.slug);
      if SlugTakenByOther(posts, i, p.slug) {
        r := Err(UniqueViolation("slug"));
      } else if p.categoryId !in CategoryIds(categories) {
        r := Err(ForeignKeyViolation("category_id"));
      } else if p.userId !in UserIds(users) {
        r := Err(ForeignKeyViolation("user_id"));
      } else if !(p.tagIds <= TagIds(tags)) {
        r := Err(ForeignKeyViolation("tag_id"));
      } else {
        ReplaceKeepsConsistency(users, categories, tags, posts, comments, nextPostId, i, p);
        posts := posts[i := p];
      }
    }

    /** Post::incrementViews on the row with primary key id. */
    method IncrementPostViews(id: nat) returns (found: bool)
      requires Valid()
      modifies this
      ensures Valid()
      ensures found <==> id in PostIds(old(posts))
      ensures found ==> exists i | 0 <= i < |old(posts)| ::
        old(posts)[i].id == id && posts == old(posts)[i := IncrementViews(old(posts)[i])]
      ensures !found ==> posts == old(posts)
      ensures users == old(users) && categories == old(categories) && tags == old(tags)
      ensures comments == old(comments) && nextPostId == old(nextPostId)
    {
      var idx := IndexOfPost(posts, id);
      if idx.None? {
        return false;
      }
      var i := idx.value;
      var p := IncrementViews(posts[i]);
      assert !SlugTakenByOther(posts, i, p.slug) by {
        PostIdsDetermineRows(posts);
      }
      ReplaceKeepsConsistency(users, categories, tags, posts, comments, nextPostId, i, p);
      posts := posts[i := p];
      found := true;
    }

    /** DELETE FROM posts WHERE id = id, with its comments and their replies. */
    method DeletePost(id: nat) returns (found: bool, removedComments: set<nat>)
      requires Valid()
      modifies this
      ensures Valid()
      ensures found <==> id in PostIds(old(posts))
      ensures posts == DropPosts(old(posts), {id})
      ensures comments == DropComments(old(comments), removedComments)
      ensures forall c | c in comments :: c.postId != id
      ensures Justified(old(comments), removedComments, CommentIdsWhere(old(comments), OnPosts({id})))
      ensures users == old(users) && categories == old(categories) && tags == old(tags)
      ensures nextPostId == old(nextPostId)
    {
      found := id in PostIds(posts);
      var roots := CommentIdsWhere(comments, OnPosts({id}));
      var left;
      left, removedComments := Cascade(comments, roots);
      RootsLeaveWith(comments, left, removedComments, OnPosts({id}));
      var doomed := {id};
      posts, comments := DropPosts(posts, doomed), left;
      DeletionKeepsConsistency(users, categories, tags, old(posts), old(comments), nextPostId,
                               users, categories, posts, comments, doomed, removedComments);
    }

    /** DELETE FROM comments WHERE id = id, with its replies, transitively. */
    method DeleteComment(id: nat) returns (found: bool, removedComments: set<nat>)
      requires Valid()
      modifies this
      ensures Valid()
      ensures found <==> id in CommentIds(old(comments))
      ensures found ==> id in removedComments
      ensures comments == DropComments(old(comments), removedComments)
      ensures Closed(comments, removedComments, {id})
      ensures Justified(old(comments), removedComments, {id})
      ensures users == old(users) && categories == old(categories) && tags == old(tags)
      ensures posts == old(posts) && nextPostId == old(nextPostId)
    {
      found := id in CommentIds(comments);
      if found {
        CommentIdWitness(comments, id);
      }
      var left;
      left, removedComments := Cascade(comments, {id});
      FilterAll(posts, KeepPost({}));
      comments := left;
      DeletionKeepsConsistency(users, categories, tags, posts, old(comments), nextPostId,
                               users, categories, posts, comments, {}, removedComments);
    }

    /** DELETE FROM categories WHERE id = id, with its posts and their comments. */
    method DeleteCategory(id: nat) returns (removedPosts: set<nat>, removedComments: set<nat>)
      requires Valid()
      modifies this
      ensures Valid()
      ensures categories == DropCategory(old(categories), id)
      ensures removedPosts == PostIdsWhere(old(posts), InCategory(id))
      ensures posts == DropPosts(old(posts), removedPosts)
      ensures forall p | p in posts :: p.categoryId != id
      ensures comments == DropComments(old(comments), removedComments)
      ensures forall c | c in comments :: c.postId !in removedPosts
      ensures Justified(old(comments), removedComments, CommentIdsWhere(old(comments), OnPosts(removedPosts)))
      ensures users == old(users) && tags == old(tags) && nextPostId == old(nextPostId)
    {
      removedPosts := PostIdsWhere(posts, InCategory(id));
      var roots := CommentIdsWhere(comments, OnPosts(removedPosts));
      var left;
      left, removedComments := Cascade(comments, roots);
      RootsLeaveWith(comments, left, removedComments, OnPosts(removedPosts));
      PostsLeaveWithCategory(posts, categories, users, tags, id, removedPosts);
      posts, categories, comments := DropPosts(posts, removedPosts), DropCategory(categories, id), left;
      DeletionKeepsConsistency(users, old(categories), tags, old(posts), old(comments), nextPostId,
                               users, categories, posts, comments, removedPosts, removedComments);
    }

    /** DELETE FROM users WHERE id = id, with the posts they wrote, the comments
        they wrote, and every comment on those posts or under those comments. */
    method DeleteUser(id: nat) returns (removedPosts: set<nat>, removedComments: set<nat>)
      requires Valid()
      modifies this
      ensures Valid()
      ensures users == DropUser(old(users), id)
      ensures removedPosts == PostIdsWhere(old(posts), ByAuthor(id))
      ensures posts == DropPosts(old(posts), removedPosts)
      ensures forall p | p in posts :: p.userId != id
      ensures comments == DropComments(old(comments), removedComments)
      ensures forall c | c in comments :: c.postId !in removedPosts && c.userId != Some(id)
      ensures Justified(old(comments), removedComments, CommentIdsWhere(old(comments), OnPostsOrBy(removedPosts, id)))
      ensures categories == old(categories) && tags == old(tags) && nextPostId == old(nextPostId)
    {
      removedPosts := PostIdsWhere(posts, ByAuthor(id));
      var roots := CommentIdsWhere(comments, OnPostsOrBy(removedPosts, id));
      var left;
      left, removedComments := Cascade(comments, roots);
      RootsLeaveWith(comments, left, removedComments, OnPostsOrBy(removedPosts, id));
      PostsLeaveWithUser(posts, categories, users, tags, id, removedPosts);
      CommentersLeaveWithUser(comments, users, id);
      posts, users, comments := DropPosts(posts, removedPosts), DropUser(users, id), left;
      DeletionKeepsConsistency(old(users), categories, tags, old(posts), old(comments), nextPostId,
                               users, categories, posts, comments, removedPosts, removedComments);
    }
  }

  /** Deletes the comments whose ids are in roots and then, repeatedly, every
      comment whose parent was deleted. What is left has no comment in roots
      and no reply whose parent is gone; everything deleted was a root or the
      reply of a deleted comment. */
  method Cascade(all: seq<Comment>, roots: set<nat>) returns (left: seq<Comment>, removed: set<nat>)
    requires CommentIdsIncreasing(all)
    ensures left == DropComments(all, removed)
    ensures removed <= CommentIds(all)
    ensures Closed(left, removed, roots)
    ensures Justified(all, removed, roots)
  {
    removed := {};
    left := all;
    FilterAll(left, KeepComment({}));
    while exists c | c in left :: c.id in roots || (c.parentId.Some? && c.parentId.value in removed)
      invariant left == DropComments(all, removed)
      invariant removed <= CommentIds(all)
      invariant Justified(all, removed, roots)
      decreases |left|
    {
      var c :| c in left && (c.id in roots || (c.parentId.Some? && c.parentId.value in removed));
      CascadeStep(all, removed, roots, c);
      left := DropComments(left, {c.id});
      removed := removed + {c.id};
    }
  }

  lemma {:induction false} FilterAll<T(!new)>(s: seq<T>, p: T -> bool)
    requires forall x | x in s :: p(x)
    ensures Filter(s, p) == s
  {
    if s != [] {
      assert s == [s[0]] + s[1..];
      FilterAll(s[1..], p);
    }
  }

  /** One iteration of the cascade keeps its invariant and makes progress. */
  lemma CascadeStep(all: seq<Comment>, removed: set<nat>, roots: set<nat>, c: Comment)
    requires CommentIdsIncreasing(all)
    requires Justified(all, removed, roots)
    requires c in DropComments(all, removed)
    requires c.id in roots || (c.parentId.Some? && c.parentId.value in removed)
    ensures DropComments(DropComments(all, removed), {c.id}) == DropComments(all, removed + {c.id})
    ensures |DropComments(DropComments(all, removed), {c.id})| < |DropComments(all, removed)|
    ensures Justified(all, removed + {c.id}, roots)
  {
    var cur := DropComments(all, removed);
    FilterFilter(all, KeepComment(removed), KeepComment({c.id}), KeepComment(removed + {c.id}));
    var i :| 0 <= i < |cur| && cur[i] == c;
    assert !KeepComment({c.id})(cur[i]);
    CommentIdsDetermineRows(all);
  }

  /** Appending a row with a fresh id, a fresh slug and valid references. */
  lemma AppendKeepsConsistency(users: seq<User>, categories: seq<Category>, tags: seq<Tag>,
                               posts: seq<Post>, comments: seq<Comment>, n: nat, p: Post)
    requires Consistent(users, categories, tags, posts, comments, n)
    requires p.id == n && p.slug !in Slugs(posts) && PostRefsOk(p, categories, users, tags)
    ensures Consistent(users, categories, tags, posts + [p], comments, n + 1)
  {
    var s := posts + [p];
    forall i, j | 0 <= i < j < |s| ensures PostIdBefore(s[i], s[j]) {
      if j < |posts| {
        assert PostIdBefore(posts[i], posts[j]);
      } else {
        assert posts[i] in posts;
      }
    }
    forall k | k in PostIds(posts) ensures k in PostIds(s) {
      PostIdWitness(posts, k);
    }
  }

  /** Replacing a row by one with the same id, a slug no other row holds and
      valid references. */
  lemma ReplaceKeepsConsistency(users: seq<User>, categories: seq<Category>, tags: seq<Tag>,
                                posts: seq<Post>, comments: seq<Comment>, n: nat, i: nat, p: Post)
    requires Consistent(users, categories, tags, posts, comments, n)
    requires i < |posts| && p.id == posts[i].id
    requires !SlugTakenByOther(posts, i, p.slug) && PostRefsOk(p, categories, users, tags)
    ensures Consistent(users, categories, tags, posts[i := p], comments, n)
  {
    var s := posts[i := p];
    ReplaceKeepsOrder(posts, i, p);
    ReplaceKeepsSlugsUnique(posts, i, p);
    ReplaceKeepsIds(posts, i, p);
    forall q | q in s ensures q.id < n && PostRefsOk(q, categories, users, tags) {
      var j :| 0 <= j < |s| && s[j] == q;
      if j != i {
        assert posts[j] == q;
      }
    }
  }

  lemma ReplaceKeepsOrder(posts: seq<Post>, i: nat, p: Post)
    requires PostIdsIncreasing(posts) && i < |posts| && p.id == posts[i].id
    ensures PostIdsIncreasing(posts[i := p])
  {
    var s := posts[i := p];
    forall a, b | 0 <= a < b < |s| ensures PostIdBefore(s[a], s[b]) {
      assert PostIdBefore(posts[a], posts[b]);
    }
  }

  lemma ReplaceKeepsSlugsUnique(posts: seq<Post>, i: nat, p: Post)
    requires PostIdsIncreasing(posts) && UniqueSlugs(posts)
    requires i < |posts| && p.id == posts[i].id && !SlugTakenByOther(posts, i, p.slug)
    ensures UniqueSlugs(posts[i := p])
  {
    var s := posts[i := p];
    PostIdsDetermineRows(posts);
    forall a, b | a in s && b in s && a != b ensures a.slug != b.slug {
      var ia :| 0 <= ia < |s| && s[ia] == a;
      var ib :| 0 <= ib < |s| && s[ib] == b;
      if ia == i {
        assert posts[ib] == b;
      } else if ib == i {
        assert posts[ia] == a;
      } else {
        assert posts[ia] == a && posts[ib] == b;
      }
    }
  }

  lemma ReplaceKeepsIds(posts: seq<Post>, i: nat, p: Post)
    requires i < |posts| && p.id == posts[i].id
    ensures PostIds(posts) <= PostIds(posts[i := p])
  {
    var s := posts[i := p];
    forall k | k in PostIds(posts) ensures k in PostIds(s) {
      PostIdWitness(posts, k);
      var q :| q in posts && q.id == k;
      var j :| 0 <= j < |posts| && posts[j] == q;
      assert s[j].id == k;
    }
  }

  /** Deleting posts P and comments R keeps the schema's constraints when what
      is left refers only to rows that are left. */
  lemma DeletionKeepsConsistency(users: seq<User>, categories: seq<Category>, tags: seq<Tag>,
                                 posts: seq<Post>, comments: seq<Comment>, n: nat,
                                 users2: seq<User>, categories2: seq<Category>,
                                 posts2: seq<Post>, comments2: seq<Comment>, P: set<nat>, R: set<nat>)
    requires Consistent(users, categories, tags, posts, comments, n)
    requires posts2 == DropPosts(posts, P) && comments2 == DropComments(comments, R)
    requires forall p | p in DropPosts(posts, P) :: PostRefsOk(p, categories2, users2, tags)
    requires forall c | c in DropComments(comments, R) ::
      && c.postId !in P
      && (c.userId.Some? ==> c.userId.value in UserIds(users2))
      && (c.parentId.Some? ==> c.parentId.value !in R)
    ensures Consistent(users2, categories2, tags, posts2, comments2, n)
  {
    var ps := posts2;
    var cs := comments2;
    FilterSorted(posts, KeepPost(P), PostIdBefore);
    FilterSorted(comments, KeepComment(R), CommentIdBefore);
    forall c | c in cs ensures CommentRefsOk(c, ps, users2, cs) {
      PostIdWitness(posts, c.postId);
      var q :| q in posts && q.id == c.postId;
      assert q in ps;
      if c.parentId.Some? {
        CommentIdWitness(comments, c.parentId.value);
        var par :| par in comments && par.id == c.parentId.value;
        assert par in cs;
      }
    }
  }

  /** The roots of a cascade are all gone afterwards. */
  lemma RootsLeaveWith(before: seq<Comment>, after: seq<Comment>, removed: set<nat>, doomed: Comment -> bool)
    requires after == DropComments(before, removed)
    requires Closed(after, removed, CommentIdsWhere(before, doomed))
    ensures forall c | c in after :: !doomed(c)
  {
    forall c | c in after ensures !doomed(c) {
      assert c in before;
      assert doomed(c) ==> c.id in CommentIdsWhere(before, doomed);
    }
  }

  /** After a category's posts go, every post left refers to a category left. */
  lemma PostsLeaveWithCategory(posts: seq<Post>, categories: seq<Category>, users: seq<User>, tags: seq<Tag>,
                               id: nat, P: set<nat>)
    requires forall p | p in posts :: PostRefsOk(p, categories, users, tags)
    requires P == PostIdsWhere(posts, InCategory(id))
    ensures forall p | p in DropPosts(posts, P) :: PostRefsOk(p, DropCategory(categories, id), users, tags)
    ensures forall p | p in DropPosts(posts, P) :: p.categoryId != id
  {
    forall p | p in DropPosts(posts, P)
      ensures p.categoryId != id && PostRefsOk(p, DropCategory(categories, id), users, tags)
    {
      assert p.categoryId == id ==> p.id in P;
      CategoryIdWitness(categories, p.categoryId);
      var k :| k in categories && k.id == p.categoryId;
      assert k in DropCategory(categories, id);
    }
  }

  /** After a user's posts go, every post left refers to a user left. */
  lemma PostsLeaveWithUser(posts: seq<Post>, categories: seq<Category>, users: seq<User>, tags: seq<Tag>,
                           id: nat, P: set<nat>)
    requires forall p | p in posts :: PostRefsOk(p, categories, users, tags)
    requires P == PostIdsWhere(posts, ByAuthor(id))
    ensures forall p | p in DropPosts(posts, P) :: PostRefsOk(p, categories, DropUser(users, id), tags)
    ensures forall p | p in DropPosts(posts, P) :: p.userId != id
  {
    forall p | p in DropPosts(posts, P)
      ensures p.userId != id && PostRefsOk(p, categories, DropUser(users, id), tags)
    {
      assert p.userId == id ==> p.id in P;
      UserIdWitness(users, p.userId);
      var u :| u in users && u.id == p.userId;
      assert u in DropUser(users, id);
    }
  }

  /** A registered commenter other than the deleted user is still a user. */
  lemma CommentersLeaveWithUser(comments: seq<Comment>, users: seq<User>, id: nat)
    ensures forall c | c in comments && c.userId.Some? && c.userId.value in UserIds(users) && c.userId != Some(id) ::
      c.userId.value in UserIds(DropUser(users, id))
  {
    forall c | c in comments && c.userId.Some? && c.userId.value in UserIds(users) && c.userId != Some(id)
      ensures c.userId.value in UserIds(DropUser(users, id))
    {
      UserIdWitness(users, c.userId.value);
      var u :| u in users && u.id == c.userId.value;
      assert u in DropUser(users, id);
    }
  }
}
