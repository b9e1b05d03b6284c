/** The post controller: create a post, read the cached feed, comment on a
    post, fetch one post. Each action is one atomic step over the document
    store and the feed cache. */
module PostController {
  import opened Model
  import opened CacheUtils
  import opened FeedQuery
  import opened Database

  /** `Post.findById`: the position of the first stored post with the id. */
  function FindPost(posts: seq<Post>, id: PostId): (r: Option<nat>)
    ensures r.Some? ==> r.value < |posts| && posts[r.value].id == id
    ensures r.Some? ==> forall j :: 0 <= j < r.value ==> posts[j].id != id
    ensures r.None? <==> forall p :: p in posts ==> p.id != id
  {
    if posts == [] then None
    else if posts[0].id == id then Some(0)
    else
      assert posts == [posts[0]] + posts[1..];
      match FindPost(posts[1..], id)
      case None => None
      case Some(k) => Some(k + 1)
  }

  /** The keys `createPost` deletes reach every reader whose feed can show
      the new post: the author, and each reader who lists the author as a
      friend (friendship being mutual, the author lists them too). */
  lemma NewPostInvalidatesItsReaders(users: map<UserId, User>, next: RequestId, entries: Entries,
                                     author: UserId, reader: UserId, now: int)
    requires UsersConsistent(users, next)
    requires author in users && reader in users
    requires reader == author || author in users[reader].friends
    ensures Lookup(DeleteAll(entries, [author] + users[author].friends), reader, now) == None
  {
    LookupAfterDeleteAll(entries, [author] + users[author].friends, reader, now);
  }

  /** The keys `addComment` deletes are the commenter's and the author's
      only: any other reader's cached feed is served as before, even one that
      lists the commenter as a friend and so would now show the post. */
  lemma CommentKeepsOtherFeeds(entries: Entries, commenter: UserId, author: UserId, reader: UserId, now: int)
    requires reader != commenter && reader != author
    ensures Lookup(DeleteAll(entries, [commenter, author]), reader, now) == Lookup(entries, reader, now)
  {
    LookupAfterDeleteAll(entries, [commenter, author], reader, now);
  }

  /** `createPost`. The post is stored first; the author's record is read
      afterwards to find the friends whose feeds to drop. When that record
      is missing the read of its friend list fails: the post stays, the
      response is an error and no cache key is deleted. Otherwise exactly
      the author's own feed and each current friend's feed are deleted. */
  method CreatePost(db: Db, cache: FeedCache, caller: UserId, text: string) returns (r: Outcome<Post>)
    requires db.Valid()
    modifies db`posts, cache`entries
    ensures db.Valid()
    ensures db.posts == old(db.posts) + [Post(|old(db.posts)|, caller, text, db.clock, [])]
    ensures forall p :: p in old(db.posts) ==> p.id != |old(db.posts)|
    ensures caller in db.users ==> r == Ok(db.posts[|old(db.posts)|])
    ensures caller in db.users ==>
      cache.entries == DeleteAll(old(cache.entries), [caller] + db.users[caller].friends)
    ensures caller in db.users ==>
      forall k :: k in cache.entries <==> k in old(cache.entries) && k != caller && k !in db.users[caller].friends
    ensures forall k :: k in cache.entries ==> k in old(cache.entries) && cache.entries[k] == old(cache.entries)[k]
    ensures caller !in db.users ==> r == Failed && cache.entries == old(cache.entries)
  {
    var post := Post(|db.posts|, caller, text, db.clock, []);
    db.posts := db.posts + [post];
    if caller !in db.users {
      r := Failed;
      return;
    }
    var keys := [caller] + db.users[caller].friends;
    cache.InvalidateCache(keys);
    DeleteAllRemovesListed(old(cache.entries), keys);
    r := Ok(post);
  }

  /** `getFeed`. A live cache entry for the reader is returned verbatim and
      nothing changes. On a miss the feed is computed from the reader's
      friend list, stored under the reader's key with the default
      time-to-live and returned; an empty feed is stored like any other. A
      missing reader record makes the computation fail. The document store
      is only read. */
  method GetFeed(db: Db, cache: FeedCache, reader: UserId) returns (r: Outcome<Feed>)
    requires db.Valid()
    modifies cache`entries
    ensures var hit := Lookup(old(cache.entries), reader, db.clock);
      hit.Some? ==> r == Ok(hit.value) && cache.entries == old(cache.entries)
    ensures var hit := Lookup(old(cache.entries), reader, db.clock);
      hit.None? && reader !in db.users ==> r == Failed && cache.entries == old(cache.entries)
    ensures var hit := Lookup(old(cache.entries), reader, db.clock);
      hit.None? && reader in db.users ==>
        && r == Ok(ComputeFeed(db.posts, db.users[reader].friends))
        && cache.entries == Store(old(cache.entries), reader, r.value, DefaultTtl, db.clock)
  {
    var cached := cache.GetCachedData(reader, db.clock);
    if cached.Some? {
      r := Ok(cached.value);
      return;
    }
    if reader !in db.users {
      r := Failed;
      return;
    }
    var feed := ComputeFeed(db.posts, db.users[reader].friends);
    cache.SetCacheData(reader, feed, db.clock);
    r := Ok(feed);
  }

  /** `addComment`. An unknown post id yields NotFound and changes nothing.
      Otherwise one comment by the caller is appended to the post's list,
      every other post stays as it was, and exactly the caller's feed and
      the post author's feed are deleted. */
  method AddComment(db: Db, cache: FeedCache, caller: UserId, postId: PostId, text: string) returns (r: Outcome<Post>)
    requires db.Valid()
    modifies db`posts, cache`entries
    ensures db.Valid()
    ensures r.NotFound? <==> forall p :: p in old(db.posts) ==> p.id != postId
    ensures r.NotFound? ==> db.posts == old(db.posts) && cache.entries == old(cache.entries)
    ensures r.NotFound? || r.Ok?
    ensures r.Ok? ==>
      exists i :: 0 <= i < |old(db.posts)| && old(db.posts)[i].id == postId
        && var before := old(db.posts)[i];
        && r.value == before.(comments := before.comments + [Comment(caller, text)])
        && db.posts == old(db.posts)[i := r.value]
        && cache.entries == DeleteAll(old(cache.entries), [caller, before.author])
  {
    var found := FindPost(db.posts, postId);
    if found.None? {
      r := NotFound;
      return;
    }
    var i := found.value;
    var post := db.posts[i];
    var commented := post.(comments := post.comments + [Comment(caller, text)]);
    db.posts := db.posts[i := commented];
    cache.InvalidateCache([caller, post.author]);
    r := Ok(commented);
  }

  /** `getPostById`: the stored post with the id, or NotFound. */
  method GetPostById(db: Db, id: PostId) returns (r: Outcome<Post>)
    ensures r.NotFound? || r.Ok?
    ensures r.NotFound? <==> forall p :: p in db.posts ==> p.id != id
    ensures r.Ok? ==> r.value in db.posts && r.value.id == id
  {
    var found := FindPost(db.posts, id);
    if found.None? {
      r := NotFound;
    } else {
      r := Ok(db.posts[found.value]);
    }
  }
}
