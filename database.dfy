/** The document store (the MongoDB `User` and `Post` collections) as one
    in-memory object, together with the abstract clock that stamps posts
    and ages cache entries. */
module Database {
  import opened Model
  import opened FriendRequests

  /** A post's id is its position in the collection, so the next position
      is a fresh id. */
  ghost predicate PostIdsArePositions(posts: seq<Post>)
  {
    forall i :: 0 <= i < |posts| ==> posts[i].id == i
  }

  /** Friend lists name stored users only, so the `populate` of the friend
      list in `getFeed` never drops an id, and friendship is mutual, since
      each handler is one atomic step; every stored friend-request id is
      below the counter and unique in its list. */
  ghost predicate UsersConsistent(users: map<UserId, User>, nextRequestId: RequestId)
  {
    && (forall u, f :: u in users && f in users[u].friends ==> f in users && u in users[f].friends)
    && (forall u, r :: u in users && r in users[u].friendRequests ==> r.id < nextRequestId)
    && (forall u :: u in users ==> DistinctIds(users[u].friendRequests))
  }

  class Db {
    /** The `User` collection, by id. */
    var users: map<UserId, User>
    /** The `Post` collection, in insertion order. */
    var posts: seq<Post>
    /** The current time, in seconds. */
    var clock: int
    /** The id the next friend-request record receives. */
    var nextRequestId: RequestId

    /** Post ids are fresh, and the user records are consistent. */
    ghost predicate Valid()
      reads this
    {
      PostIdsArePositions(posts) && UsersConsistent(users, nextRequestId)
    }

    constructor (now: int)
      ensures Valid()
      ensures users == map[] && posts == [] && clock == now && nextRequestId == 0
    {
      users := map[];
      posts := [];
      clock := now;
      nextRequestId := 0;
    }

    /** `User.create` of registration: a new user with no friends and no
        requests. */
    method AddUser(id: UserId)
      requires Valid()
      requires id !in users
      modifies this`users
      ensures Valid()
      ensures users == old(users)[id := User([], [])]
    {
      users := users[id := User([], [])];
    }

    /** Time passes. */
    method Tick(seconds: nat)
      modifies this`clock
      ensures clock == old(clock) + seconds
    {
      clock := clock + seconds;
    }
  }
}
