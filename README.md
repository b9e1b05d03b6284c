# Feed-cache coherence of a social-network backend

This project models the controllers of a small social-network backend (Express, MongoDB,
Redis) as one in-memory state machine, and proves what each action does to it. The state
holds:

- users, each with a friend list and a list of friend-request records `{id, from, status}`;
- posts `{id, author, text, createdAt}`, each with an append-only comment list;
- the feed cache, with a value and an expiry time per key;
- an abstract clock.

A cache key `feed:<id>` is modelled by the user id itself. The fixed prefix makes the two
interchangeable.

Modules: one per source file or store, plus `FriendRequests`, which holds the
request-list queries of the user controller, and `Scenarios`, which holds client call
sequences:

- `Model` (`model.dfy`): the entities and the outcome of an action (`Ok`, `NotFound`,
  `Conflict`, `Failed` for 2xx, 404, 400 and 500).
- `CacheUtils` (`cache_utils.dfy`): the Redis wrappers as a `FeedCache` class. `Lookup`,
  `Store` and `DeleteAll` specify them. `InvalidateCache` is the delete loop, proved against
  `DeleteAll`.
- `FeedQuery` (`feed_query.dfy`): the feed query as pure functions. It selects posts written
  by a friend or commented on by a friend, then sorts them stably, newest first.
- `FriendRequests` (`friend_requests.dfy`): the lookups over a friend-request list. This
  includes the duplicate check exactly as written.
- `Database` (`database.dfy`): the `User` and `Post` collections and the clock, as a `Db`
  class. Its invariant says that:
  - ids are fresh;
  - friend lists name stored users only;
  - friendship is mutual;
  - request ids are distinct.
- `PostController` and `UserController`: each controller action is a method over `Db` and
  `FeedCache`. Each method states the complete new state and the outcome.
- `Scenarios`: client methods that chain actions. They show what callers can rely on: a
  second feed read returns the same payload, and a friend's next read after a post
  contains it. They also cover repeated sends and repeated answers.

Behaviours of the code as written that the model keeps:

- **The duplicate check never fires.** The code comments the check as "Check if a friend
  request already exists" (`controllers/userController.js:19`). Its `find` callback names
  its parameter `req`, which shadows the HTTP request. So the check reads a `user` property
  that a friend-request record does not have. `ExistingCheckNeverMatches` proves that it
  matches nothing, and `SendTwice` shows that two sends leave two pending records.
- **A user's own posts are not in their own feed.** `createPost` invalidates "the user and
  their friends" (`controllers/postController.js:20-22`), so the author's own feed is
  dropped too. The feed query selects only posts by friends or commented on by friends
  (`controllers/postController.js:50-54`). `OwnPostUnseen` shows that an author with no
  friends reads an empty feed after posting.
- **Any response is written into the status.** The status is assigned as given
  (`controllers/userController.js:75`); the response value is not restricted. Any response
  other than `pending` closes the request (`RespondedRequestClosed`); a response of
  `pending` leaves it open to a second answer.
- **A failing delete makes the response an error.** `invalidateCache` runs inside the `try`
  of `createPost` (`controllers/postController.js:23`), `addComment`
  (`controllers/postController.js:95`) and `respondFriendRequest`
  (`controllers/userController.js:79`), after the store write. If a delete failed, the response would be a 500
  even though the write has happened. The model has no failing store calls (see below).

## Model

| member | source | states |
|---|---|---|
| CacheUtils.FeedCache.GetCachedData | utils/cacheUtils.js:3-6 | a read yields the stored feed exactly when the key is present and not expired, and nothing for a missing or expired key |
| CacheUtils.FeedCache.SetCacheData | utils/cacheUtils.js:8-10 | the key's entry is replaced by the value with expiry now + ttl (ttl 600 by default, positive as Redis requires); no other key changes |
| CacheUtils.FeedCache.InvalidateCache | utils/cacheUtils.js:12-16 | the delete loop leaves the cache equal to `DeleteAll` of the old cache and the key list |
| CacheUtils.DeleteAllIsDifference | utils/cacheUtils.js:12-16 | deleting the keys one by one removes exactly the set of listed keys |
| CacheUtils.DeleteAllRemovesListed | utils/cacheUtils.js:12-16 | after invalidation a key is present iff it was present and is not listed, and every remaining key keeps its value |
| CacheUtils.DeleteAllIdempotent | utils/cacheUtils.js:12-16 | invalidating the same list twice equals invalidating it once; deleting an absent key is harmless |
| CacheUtils.LookupAfterDeleteAll | utils/cacheUtils.js:3-16 | a listed key reads as missing after invalidation; an unlisted key reads as it did before |
| CacheUtils.LookupAfterStore | utils/cacheUtils.js:3-10 | a value written with ttl t at time w is read back verbatim before w + t and is missing from w + t on; other keys read as before |
| FeedQuery.Select | controllers/postController.js:50-55 | the selection keeps each qualifying post (friend author, or a comment by a friend) with its multiplicity and drops every other post |
| FeedQuery.InsertNewestFirst | controllers/postController.js:58 | inserting into a newest-first sequence keeps it newest first and adds exactly the one post |
| FeedQuery.SortNewestFirst | controllers/postController.js:58 | the sort yields a createdAt-non-increasing permutation of its input |
| FeedQuery.ComputeFeed | controllers/postController.js:49-58 | the computed feed is newest first and holds exactly the posts by a friend or commented on by a friend, as often as stored |
| FeedQuery.NoFriendsEmptyFeed | controllers/postController.js:49-54 | a reader with no friends gets an empty feed |
| FeedQuery.OwnPostsNotInOwnFeed | controllers/postController.js:50-54 | a reader's own post is in their feed only if a friend commented on it (when the reader is not their own friend) |
| FriendRequests.FindFirst | controllers/userController.js:20-22 | the `find` on a request list returns the first record the callback accepts, or none exactly when it accepts no record |
| FriendRequests.FindPending | controllers/userController.js:54-60 | the lookup returns the first record with the id whose status is pending, or none when no such record exists |
| FriendRequests.RespondedRequestClosed | controllers/userController.js:54-76 | after the found request's status is set to anything but pending it can no longer be found; set to pending it is found again |
| FriendRequests.PendingRequests | controllers/userController.js:118 | the result holds exactly the stored records whose status is pending |
| FriendRequests.PendingRequestsCounts | controllers/userController.js:118 | the filter keeps each pending record as often as it is stored and drops every other record |
| FriendRequests.PendingRequestsOfAppend | controllers/userController.js:118 | the filter distributes over concatenation, so the pending records keep their stored order |
| FriendRequests.SendAddsPendingRecord | controllers/userController.js:29-30 | an appended pending record appears last in the pending list, after all earlier pending records |
| FriendRequests.ExistingCheckNeverMatches | controllers/userController.js:20-26 | the duplicate check as written, with `req` shadowed, finds no record in any list |
| Database.Db.AddUser | controllers/authController.js:25-29 | registration stores a new user with no friends and no requests and keeps the store consistent |
| PostController.FindPost | controllers/postController.js:80-83 | the lookup by id returns the first post with that id, or none exactly when no stored post has it |
| PostController.CreatePost | controllers/postController.js:10-29 | exactly one post (fresh id, author = caller, the text, current time, no comments) is appended and existing posts are unchanged. With the caller stored, exactly `feed:caller` and `feed:f` for each current friend f are deleted. With the caller missing, the post stays, the outcome is an error and no key is deleted |
| PostController.NewPostInvalidatesItsReaders | controllers/postController.js:21-23 | the keys createPost deletes cover the author and every reader who lists the author as a friend |
| PostController.GetFeed | controllers/postController.js:36-67 | a hit returns the cached payload verbatim and changes nothing. On a miss with a stored reader, the computed feed is stored under the reader's key with ttl 600 and returned (an empty feed too). A missing reader is an error with no change |
| PostController.AddComment | controllers/postController.js:74-101 | an unknown id yields NotFound and changes nothing. Otherwise one comment {caller, text} is appended to that post only, the updated post is returned, and exactly `feed:caller` and `feed:author` are deleted |
| PostController.CommentKeepsOtherFeeds | controllers/postController.js:94-95 | a reader who is neither the commenter nor the post's author keeps their cached feed after a comment |
| PostController.GetPostById | controllers/postController.js:108-123 | returns a stored post with the id, or NotFound exactly when no stored post has it |
| UserController.AcceptanceIsMutual | controllers/userController.js:62-72 | acceptance appends each party to the other's friend list without a membership check and changes no other user and no request list |
| UserController.StatusKeepsConsistent | controllers/userController.js:75-76 | writing a response into a request's status keeps request ids fresh and distinct |
| UserController.RespondKeepsConsistent | controllers/userController.js:62-76 | acceptance and the status write keep friend lists mutual and naming stored users only |
| UserController.SendFriendRequest | controllers/userController.js:9-36 | an unknown recipient yields NotFound with no change. Otherwise, unless the as-written check fires, exactly one {fresh id, caller, pending} record is appended to the recipient's list and no other user changes |
| UserController.RespondFriendRequest | controllers/userController.js:43-85 | a missing responder or no pending request with the id yields NotFound with no change. On accepted with the sender stored, the friend pushes and the status write happen; with the sender missing, the outcome is an error and nothing changes. Any other response is only written into the status. On success exactly the responder's and the sender's feeds are deleted |
| UserController.GetFriends | controllers/userController.js:92-104 | returns the caller's friend list, every id naming a stored user, or NotFound exactly when the caller is missing |
| UserController.GetPendingRequests | controllers/userController.js:111-123 | returns exactly the caller's pending records in stored order, or NotFound exactly when the caller is missing |
| Scenarios.ReadFeedTwice | controllers/postController.js:41-63 | two reads with no mutation between them return identical outcomes, and a successful feed is then cached for the reader |
| Scenarios.ReadFeedLater | utils/cacheUtils.js:8-10 | a computed feed is served from its entry within 600 seconds and recomputed and stored afresh after that |
| Scenarios.PostReachesFriend | controllers/postController.js:21-58 | after an author posts, a friend's next feed read contains the new post |
| Scenarios.OwnPostUnseen | controllers/postController.js:50-54 | an author without friends posts and then reads an empty feed |
| Scenarios.SendTwice | controllers/userController.js:20-30 | two sends to a stored recipient both succeed and add two pending records from the caller, in order |
| Scenarios.PendingAfterTwoSends | controllers/userController.js:29-30 | two appended pending records appear at the end of the pending list in append order |
| Scenarios.RespondTwice | controllers/userController.js:54-79 | after a successful non-pending answer, the same answer again yields NotFound; after a `pending` answer it succeeds again |

## Left out

- Authentication (`controllers/authController.js`, `middleware/authMiddleware.js`) is not
  modelled: bcrypt hashing and JWT signing and verification are foreign library calls. The
  caller id is a parameter of every action, and registration is reduced to `Db.AddUser`.
- Routing, server start-up and the MongoDB and Redis connections (`routes/*.js`, `index.js`,
  `config/db.js`) are not modelled: they are framework wiring.
- JSON serialisation of cached feeds is not modelled: it is a library round trip. A cached
  feed is an opaque sequence of posts, and a stored feed is never falsy after parsing, so
  every live entry is a hit.
- `populate` display fields (usernames and emails of authors, commenters and request
  senders) are not modelled. The `populate` of the friend list inside `getFeed` could drop
  ids with no stored user. The invariant `Database.UsersConsistent` proves that no such id
  exists.
- Concurrency is not modelled. Each handler is one atomic step, so there are no interleaved
  requests, no stale cache repopulation racing an invalidation, and no crash between the two
  saves of an acceptance.
- Store and cache failures are not modelled: every store call succeeds. Only the source's
  own thrown error, reading the friend list of a missing user record, becomes `Failed`.
- HTTP status codes and messages are kept only as the outcome kind.
- Malformed ids are not modelled. Ids are naturals, so the cast errors for malformed ids
  cannot arise. Document ids come from counters (a post's id is its position, a request's
  id comes from `nextRequestId`).
- Time is a single clock (`Db.clock`, advanced by `Db.Tick`). It both stamps `createdAt` and
  ages cache entries. An entry is live strictly before its write time plus its TTL.
- `updatedAt` and any comment timestamps that a schema might add are not modelled.
- FeedQuery.SortNewestFirst: posts with equal `createdAt` keep store order. The store's sort
  promises no order among ties.
- The user schema file is not part of this model, so whether it would reject a status value
  other than pending, accepted or rejected is not modelled. Any response is written.
- UserController.RespondFriendRequest: the outcome of accepting one's own request depends on
  the store's optimistic versioning of the two saves of one document, which is not modelled.
  This is an unverified modelling choice: the model applies both friend-list pushes in turn,
  so the user's list gains their own id twice.
- Status strings: a response string other than "pending", "accepted" and "rejected" is
  carried by `Other`. Each string has exactly one encoding (the `Status` subset type).
