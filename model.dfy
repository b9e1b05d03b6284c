/** Entities of the social-network backend shared by the controllers and the
    feed cache: users with their friend lists and friend-request records,
    posts with their append-only comment lists, and the outcomes of a
    controller action. */
module Model {

  /** Document identities (MongoDB ObjectIds) are modelled as naturals. */
  type UserId = nat
  type PostId = nat
  type RequestId = nat

  /** A status string of a friend-request record. A response is written into
      the status as given, so values other than the three named ones can
      occur; those are carried by `Other`. */
  datatype StatusValue = Pending | Accepted | Rejected | Other(name: string)

  /** Status strings with exactly one encoding each: the strings "pending",
      "accepted" and "rejected" are the three named constructors, never
      `Other`, so `=== 'pending'` and `=== 'accepted'` in the code are
      equality of `Status` values here. */
  type Status = s: StatusValue | s.Other? ==> s.name !in {"pending", "accepted", "rejected"}
    witness Pending

  /** One entry of a user's `friendRequests` list. */
  datatype FriendRequest = FriendRequest(id: RequestId, from: UserId, status: Status)

  /** A user record, as far as the feed logic sees it. */
  datatype User = User(friends: seq<UserId>, friendRequests: seq<FriendRequest>)

  datatype Comment = Comment(commenter: UserId, text: string)

  datatype Post = Post(id: PostId, author: UserId, text: string, createdAt: int, comments: seq<Comment>)

  /** A feed is an ordered sequence of posts; the cache stores it as is. */
  type Feed = seq<Post>

  datatype Option<T> = None | Some(value: T)

  /** The kind of HTTP response a controller action sends:
      2xx with a payload, 404, 400 or 500. */
  datatype Outcome<T> = Ok(value: T) | NotFound | Conflict | Failed
}
