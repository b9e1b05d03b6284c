/** Sequences of controller actions, with what a client can rely on across
    them. Each follows from the contracts of the actions alone. */
module Scenarios {
  import opened Model
  import opened CacheUtils
  import opened FeedQuery
  import opened FriendRequests
  import opened Database
  import opened PostController
  import opened UserController

  /** Two feed reads with no mutation in between give the same answer, and
      the reader's feed is then cached under their key; this holds for an
      empty feed too. */
  method ReadFeedTwice(db: Db, cache: FeedCache, reader: UserId) returns (first: Outcome<Feed>, second: Outcome<Feed>)
    requires db.Valid()
    modifies cache`entries
    ensures second == first
    ensures first.Ok? ==> Lookup(cache.entries, reader, db.clock) == Some(first.value)
  {
    first := GetFeed(db, cache, reader);
    second := GetFeed(db, cache, reader);
  }

  /** A computed feed is served from the cache for the whole time-to-live
      and recomputed and stored afresh once it has run out; the stores being
      unchanged, both reads agree. */
  method ReadFeedLater(db: Db, cache: FeedCache, reader: UserId, wait: nat) returns (first: Outcome<Feed>, second: Outcome<Feed>)
    requires db.Valid()
    requires Lookup(cache.entries, reader, db.clock).None?
    modifies cache`entries, db`clock
    ensures first.Ok? ==> second == first && reader in cache.entries
    ensures first.Ok? && wait < DefaultTtl ==> cache.entries[reader] == Entry(first.value, old(db.clock) + DefaultTtl)
    ensures first.Ok? && wait >= DefaultTtl ==> cache.entries[reader] == Entry(first.value, db.clock + DefaultTtl)
  {
    first := GetFeed(db, cache, reader);
    db.Tick(wait);
    second := GetFeed(db, cache, reader);
  }

  /** After an author posts, the next feed read of the author or of any of
      their friends is recomputed and so contains the new post, whatever was
      cached before. */
  method PostReachesFriend(db: Db, cache: FeedCache, author: UserId, text: string, reader: UserId)
    returns (posted: Outcome<Post>, feed: Outcome<Feed>)
    requires db.Valid()
    requires author in db.users && reader in db.users && author in db.users[reader].friends
    modifies db`posts, cache`entries
    ensures posted.Ok? && feed.Ok?
    ensures posted.value in feed.value
  {
    posted := CreatePost(db, cache, author, text);
    NewPostInvalidatesItsReaders(db.users, db.nextRequestId, old(cache.entries), author, reader, db.clock);
    feed := GetFeed(db, cache, reader);
  }

  /** A user without friends never sees their own post in their feed: the
      feed query selects friends' posts only. */
  method OwnPostUnseen(db: Db, cache: FeedCache, author: UserId, text: string)
    returns (posted: Outcome<Post>, feed: Outcome<Feed>)
    requires db.Valid()
    requires author in db.users && db.users[author].friends == []
    modifies db`posts, cache`entries
    ensures posted.Ok? && feed == Ok([])
  {
    posted := CreatePost(db, cache, author, text);
    NoFriendsEmptyFeed(db.posts);
    feed := GetFeed(db, cache, author);
  }

  /** Sending the same request twice to a stored recipient succeeds both
      times and leaves two pending records from the caller, in order. */
  method SendTwice(db: Db, caller: UserId, to: UserId) returns (first: Outcome<()>, second: Outcome<()>)
    requires db.Valid()
    requires to in db.users
    modifies db`users, db`nextRequestId
    ensures first.Ok? && second.Ok? && to in db.users
    ensures PendingRequests(db.users[to].friendRequests)
         == PendingRequests(old(db.users)[to].friendRequests)
          + [FriendRequest(old(db.nextRequestId), caller, Pending), FriendRequest(old(db.nextRequestId) + 1, caller, Pending)]
  {
    ghost var before := db.users[to].friendRequests;
    ExistingCheckNeverMatches(before);
    first := SendFriendRequest(db, caller, to);
    ExistingCheckNeverMatches(db.users[to].friendRequests);
    second := SendFriendRequest(db, caller, to);
    PendingAfterTwoSends(before, old(db.nextRequestId), caller);
  }

  /** Two pending records appended one after the other close the pending
      list, in that order. */
  lemma PendingAfterTwoSends(reqs: seq<FriendRequest>, id: RequestId, from: UserId)
    ensures var one := FriendRequest(id, from, Pending);
            var two := FriendRequest(id + 1, from, Pending);
            PendingRequests(reqs + [one] + [two]) == PendingRequests(reqs) + [one, two]
  {
    var one := FriendRequest(id, from, Pending);
    var two := FriendRequest(id + 1, from, Pending);
    SendAddsPendingRecord(reqs, id, from);
    SendAddsPendingRecord(reqs + [one], id + 1, from);
  }

  /** Answering the same request twice: once the first answer has settled
      it, the second is refused and changes nothing, so an acceptance takes
      effect once. An answer of `Pending` leaves it open to a second answer. */
  method RespondTwice(db: Db, cache: FeedCache, caller: UserId, requestId: RequestId, response: Status)
    returns (first: Outcome<()>, second: Outcome<()>)
    requires db.Valid()
    modifies db`users, cache`entries
    ensures first.Ok? && response != Pending ==> second.NotFound?
    ensures first.Ok? && response == Pending ==> second.Ok?
  {
    first := RespondFriendRequest(db, cache, caller, requestId, response);
    if first.Ok? {
      ghost var reqs := old(db.users)[caller].friendRequests;
      ghost var i := FindPending(reqs, requestId).value;
      assert db.users[caller].friendRequests == WithStatus(reqs, i, response);
      RespondedRequestClosed(reqs, requestId, i, response);
    }
    second := RespondFriendRequest(db, cache, caller, requestId, response);
  }
}
