/** The statistics the home page and the admin dashboard compute in their
    route closures, and the dashboard's recent posts. */
module Routes {

  import opened Base
  import opened Schema
  import opened Seqs
  import opened PostModel
  import opened CommentModel
  import opened PostController

  /** sum('views_count') over a set of rows. */
  function SumViews(posts: seq<Post>): (total: nat)
    ensures posts == [] ==> total == 0
    ensures |posts| == 1 ==> total == posts[0].viewsCount
    ensures forall i | 0 <= i < |posts| :: total >= posts[i].viewsCount
  {
    if posts == [] then 0 else posts[0].viewsCount + SumViews(posts[1..])
  }

  /** The sum over two runs of rows is the sum of their sums. */
  lemma {:induction false} SumViewsAppend(a: seq<Post>, b: seq<Post>)
    ensures SumViews(a + b) == SumViews(a) + SumViews(b)
  {
    if a != [] {
      assert (a + b)[1..] == a[1..] + b;
      SumViewsAppend(a[1..], b);
    } else {
      assert a + b == b;
    }
  }

  /** Narrowing the rows never raises the sum. */
  lemma {:induction false} SumViewsOfFilter(posts: seq<Post>, keep: Post -> bool)
    ensures SumViews(Filter(posts, keep)) <= SumViews(posts)
  {
    if posts != [] {
      SumViewsOfFilter(posts[1..], keep);
    }
  }

  /** One counted view raises the sum by exactly one. */
  lemma {:induction false} SumViewsAfterView(posts: seq<Post>, i: nat)
    requires i < |posts|
    ensures SumViews(posts[i := IncrementViews(posts[i])]) == SumViews(posts) + 1
  {
    if i == 0 {
      assert posts[i := IncrementViews(posts[i])][1..] == posts[1..];
    } else {
      assert posts[i := IncrementViews(posts[i])][1..] == posts[1..][i - 1 := IncrementViews(posts[i])];
      SumViewsAfterView(posts[1..], i - 1);
    }
  }

  datatype HomeStats = HomeStats(postsCount: nat, categoriesCount: nat, viewsCount: nat)

  function ActiveCategories(categories: seq<Category>): (r: seq<Category>)
    ensures forall c :: c in r <==> c in categories && c.isActive
    ensures |r| <= |categories|
  {
    Filter(categories, (c: Category) => c.isActive)
  }

  /** GET /: visible posts, active categories, and the views of visible posts. */
  function Home(posts: seq<Post>, categories: seq<Category>, now: Timestamp): (r: HomeStats)
    ensures r.postsCount == |PublishedScope(posts, now)| && r.postsCount <= |posts|
    ensures r.categoriesCount == |ActiveCategories(categories)| && r.categoriesCount <= |categories|
    ensures r.viewsCount == SumViews(PublishedScope(posts, now)) && r.viewsCount <= SumViews(posts)
  {
    SumViewsOfFilter(posts, (p: Post) => Visible(p, now));
    HomeStats(|PublishedScope(posts, now)|, |ActiveCategories(categories)|, SumViews(PublishedScope(posts, now)))
  }

  datatype DashboardStats = DashboardStats(
    totalPosts: nat, publishedPosts: nat, draftPosts: nat,
    totalViews: nat, totalComments: nat, pendingComments: nat)

  /** GET /dashboard: the post and comment counters. total_comments counts
      approved comments only. */
  function Dashboard(posts: seq<Post>, comments: seq<Comment>, now: Timestamp): (r: DashboardStats)
    ensures r.totalPosts == |posts| && r.totalViews == SumViews(posts)
    ensures r.publishedPosts == |PublishedScope(posts, now)| && r.draftPosts == |DraftScope(posts)|
    ensures r.totalComments == |ApprovedScope(comments)| && r.pendingComments == |PendingScope(comments)|
    ensures r.publishedPosts + r.draftPosts <= r.totalPosts
    ensures r.totalComments + r.pendingComments <= |comments|
  {
    PublishedAndDraftDisjoint(posts, now);
    ApprovedAndPendingDisjoint(comments);
    DashboardStats(|posts|, |PublishedScope(posts, now)|, |DraftScope(posts)|,
                   SumViews(posts), |ApprovedScope(comments)|, |PendingScope(comments)|)
  }

  /** The home page never reports more views than the dashboard. */
  lemma HomeViewsWithinDashboard(posts: seq<Post>, categories: seq<Category>, comments: seq<Comment>, now: Timestamp)
    ensures Home(posts, categories, now).viewsCount <= Dashboard(posts, comments, now).totalViews
    ensures Home(posts, categories, now).postsCount == Dashboard(posts, comments, now).publishedPosts
  {
  }

  const RecentCount: nat := 5

  /** The dashboard's recent posts: the five latest created. */
  function RecentPosts(posts: seq<Post>): (r: seq<Post>)
    ensures |r| == if |posts| < RecentCount then |posts| else RecentCount
    ensures r == SortBy(posts, NewerCreated)[..|r|]
    ensures multiset(r) <= multiset(posts)
    ensures forall p | p in r :: p in posts
    ensures SortedBy(r, NewerCreated)
  {
    NewerCreatedIsPreorder();
    SortBySorted(posts, NewerCreated);
    SortedSlice(SortBy(posts, NewerCreated), 0, |Take(SortBy(posts, NewerCreated), RecentCount)|, NewerCreated);
    Take(SortBy(posts, NewerCreated), RecentCount)
  }

  /** A post missing from the recent list was created no later than every
      listed one. */
  lemma RecentPostsAreNewest(posts: seq<Post>, p: Post)
    requires p in posts && p !in RecentPosts(posts)
    ensures forall x | x in RecentPosts(posts) :: x.createdAt >= p.createdAt
  {
    NewerCreatedIsPreorder();
    SortBySorted(posts, NewerCreated);
    TakeKeepsTop(SortBy(posts, NewerCreated), RecentCount, NewerCreated, p);
  }
}
