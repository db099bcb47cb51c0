/** The Comment model: display name of the commenter, the approved and
    pending scopes, and the parent/replies self-relation. */
module CommentModel {

  import opened Base
  import opened Schema
  import opened Seqs

  const AnonymousLabel: string := "Anonymous"

  /** The user row a nullable user_id refers to (the loaded `user` relation). */
  function FindUser(users: seq<User>, id: Option<nat>): (r: Option<User>)
    ensures r.Some? ==> id.Some? && r.value in users && r.value.id == id.value
    ensures r.None? ==> id.None? || forall u | u in users :: u.id != id.value
  {
    if id.None? || users == [] then None
    else if users[0].id == id.value then Some(users[0])
    else FindUser(users[1..], id)
  }

  /** getAuthorDisplayNameAttribute: the linked user's name when a user is
      linked, else author_name when it is not null, else "Anonymous". */
  function DisplayName(c: Comment, users: seq<User>): (name: string)
    ensures FindUser(users, c.userId).Some? ==> name == FindUser(users, c.userId).value.name
    ensures FindUser(users, c.userId).None? && c.authorName.Some? ==> name == c.authorName.value
    ensures FindUser(users, c.userId).None? && c.authorName.None? ==> name == AnonymousLabel
  {
    match FindUser(users, c.userId)
    case Some(u) => u.name
    case None => if c.authorName.Some? then c.authorName.value else AnonymousLabel
  }

  /** A registered commenter's name wins over any guest name stored on the row. */
  lemma RegisteredNameWins(c: Comment, users: seq<User>, u: User)
    requires u in users && c.userId == Some(u.id)
    requires forall i, j | 0 <= i < j < |users| :: users[i].id != users[j].id
    ensures DisplayName(c, users) == u.name
  {
    var r := FindUser(users, c.userId);
    var j :| 0 <= j < |users| && users[j] == u;
    var i :| 0 <= i < |users| && users[i] == r.value;
    assert i == j;
  }

  /** Comment::approved() */
  function ApprovedScope(comments: seq<Comment>): (r: seq<Comment>)
    ensures forall c :: c in r <==> c in comments && c.status == Approved
  {
    Filter(comments, (c: Comment) => c.status == Approved)
  }

  /** Comment::pending() */
  function PendingScope(comments: seq<Comment>): (r: seq<Comment>)
    ensures forall c :: c in r <==> c in comments && c.status == Pending
  {
    Filter(comments, (c: Comment) => c.status == Pending)
  }

  /** No comment is both approved and pending. */
  lemma ApprovedAndPendingDisjoint(comments: seq<Comment>)
    ensures |ApprovedScope(comments)| + |PendingScope(comments)| <= |comments|
  {
    DisjointFiltersBound(comments, (c: Comment) => c.status == Approved, (c: Comment) => c.status == Pending);
  }

  /** Comment::replies(): every comment whose parent_id is c's id. */
  function Replies(comments: seq<Comment>, c: Comment): (r: seq<Comment>)
    ensures forall x :: x in r <==> x in comments && x.parentId == Some(c.id)
  {
    Filter(comments, (x: Comment) => x.parentId == Some(c.id))
  }

  /** Comment::parent(): the row parent_id refers to. */
  function Parent(comments: seq<Comment>, x: Comment): (r: Option<Comment>)
    ensures r.Some? ==> x.parentId.Some? && r.value in comments && r.value.id == x.parentId.value
    ensures r.None? ==> x.parentId.None? || forall c | c in comments :: c.id != x.parentId.value
  {
    if x.parentId.None? || comments == [] then None
    else if comments[0].id == x.parentId.value then Some(comments[0])
    else Parent(comments[1..], x)
  }

  /** parent and replies are inverse relations when comment ids are unique:
      x is a reply of c exactly when c is the parent of x. */
  lemma RepliesInverseOfParent(comments: seq<Comment>, c: Comment, x: Comment)
    requires CommentIdsIncreasing(comments)
    requires c in comments && x in comments
    ensures x in Replies(comments, c) <==> Parent(comments, x) == Some(c)
  {
    if x.parentId == Some(c.id) {
      var r := Parent(comments, x);
      var i :| 0 <= i < |comments| && comments[i] == r.value;
      CommentIdsDetermineRows(comments);
    }
  }
}
