/** The feed query of `getFeed`: select the posts a reader's friends wrote
    or commented on, then order them newest first. It reads the stores and
    changes nothing. */
module FeedQuery {
  import opened Model

  /** Some comment on `p` was written by a member of `friends`. */
  predicate CommentedByAnyOf(p: Post, friends: seq<UserId>)
  {
    exists c :: c in p.comments && c.commenter in friends
  }

  /** The selection predicate of the feed query: written by a friend, or
      commented on by a friend. The reader's own id plays no part. */
  predicate Qualifies(p: Post, friends: seq<UserId>)
  {
    p.author in friends || CommentedByAnyOf(p, friends)
  }

  /** Posts ordered by creation time, newest first. */
  predicate NewestFirst(s: seq<Post>)
  {
    forall i, j :: 0 <= i < j < |s| ==> s[i].createdAt >= s[j].createdAt
  }

  /** The qualifying posts, in store order. */
  function Select(posts: seq<Post>, friends: seq<UserId>): (r: seq<Post>)
    ensures forall p :: multiset(r)[p] == if Qualifies(p, friends) then multiset(posts)[p] else 0
  {
    if posts == [] then []
    else
      assert posts == [posts[0]] + posts[1..];
      (if Qualifies(posts[0], friends) then [posts[0]] else []) + Select(posts[1..], friends)
  }

  /** Insert `p` into a newest-first sequence, ahead of the posts with the
      same creation time. */
  function InsertNewestFirst(p: Post, s: seq<Post>): (r: seq<Post>)
    requires NewestFirst(s)
    ensures NewestFirst(r)
    ensures multiset(r) == multiset(s) + multiset{p}
    ensures r[0] == p || r[0] == s[0]
  {
    if s == [] || s[0].createdAt <= p.createdAt then [p] + s
    else
      assert s == [s[0]] + s[1..];
      [s[0]] + InsertNewestFirst(p, s[1..])
  }

  /** A stable sort on creation time, newest first. */
  function SortNewestFirst(s: seq<Post>): (r: seq<Post>)
    ensures NewestFirst(r)
    ensures multiset(r) == multiset(s)
  {
    if s == [] then []
    else
      assert s == [s[0]] + s[1..];
      InsertNewestFirst(s[0], SortNewestFirst(s[1..]))
  }

  /** The feed computed on a cache miss: every qualifying post, as often as
      the store holds it, and nothing else, newest first. */
  function ComputeFeed(posts: seq<Post>, friends: seq<UserId>): (r: Feed)
    ensures NewestFirst(r)
    ensures forall p :: multiset(r)[p] == if Qualifies(p, friends) then multiset(posts)[p] else 0
    ensures forall p :: p in r <==> p in posts && Qualifies(p, friends)
  {
    SortNewestFirst(Select(posts, friends))
  }

  /** A reader without friends has an empty feed, whatever the store holds. */
  lemma NoFriendsEmptyFeed(posts: seq<Post>)
    ensures ComputeFeed(posts, []) == []
  {
  }

  /** A reader's own post reaches their feed only when the reader is in
      their own friend list or a friend commented on it. */
  lemma OwnPostsNotInOwnFeed(posts: seq<Post>, friends: seq<UserId>, reader: UserId)
    requires reader !in friends
    ensures forall p :: p in ComputeFeed(posts, friends) && p.author == reader ==> CommentedByAnyOf(p, friends)
  {
  }
}
