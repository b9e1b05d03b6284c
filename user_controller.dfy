/** The user controller: send a friend request, answer one, list a user's
    friends and pending requests. Each action is one atomic step over the
    document store and, for an answer, the feed cache. */
module UserController {
  import opened Model
  import opened CacheUtils
  import opened FriendRequests
  import opened Database

  /** `owner.friends.push(friend)` on the stored record. */
  function AddFriend(users: map<UserId, User>, owner: UserId, friend: UserId): (after: map<UserId, User>)
    requires owner in users
  {
    users[owner := users[owner].(friends := users[owner].friends + [friend])]
  }

  /** `friendRequest.status = status` on the `i`-th request of `owner`. */
  function SetRequestStatus(users: map<UserId, User>, owner: UserId, i: nat, status: Status): (after: map<UserId, User>)
    requires owner in users && i < |users[owner].friendRequests|
  {
    users[owner := users[owner].(friendRequests := WithStatus(users[owner].friendRequests, i, status))]
  }

  /** Acceptance pushes each party onto the other's friend list, without a
      membership check, and touches nobody else; the request lists stay as
      they were. When the two are one user, the model applies both pushes to
      that user's list; what the store does with the two saves of one
      document is not modelled. */
  lemma AcceptanceIsMutual(users: map<UserId, User>, responder: UserId, sender: UserId)
    requires responder in users && sender in users
    ensures var after := AddFriend(AddFriend(users, sender, responder), responder, sender);
      && after.Keys == users.Keys
      && (responder != sender ==> after[responder].friends == users[responder].friends + [sender])
      && (responder != sender ==> after[sender].friends == users[sender].friends + [responder])
      && (responder == sender ==> after[sender].friends == users[sender].friends + [sender, sender])
      && (forall u :: u in users ==> after[u].friendRequests == users[u].friendRequests)
      && (forall u :: u in users && u != responder && u != sender ==> after[u] == users[u])
  {
    if responder == sender {
      assert users[sender].friends + [sender] + [sender] == users[sender].friends + [sender, sender];
    }
  }

  /** Answering a request keeps the user records consistent: the request
      ids do not change, and acceptance links two stored users. */
  lemma RespondKeepsConsistent(users: map<UserId, User>, next: RequestId, caller: UserId, sender: UserId, i: nat, status: Status)
    requires UsersConsistent(users, next)
    requires caller in users && sender in users && i < |users[caller].friendRequests|
    ensures UsersConsistent(SetRequestStatus(users, caller, i, status), next)
    ensures UsersConsistent(SetRequestStatus(AddFriend(AddFriend(users, sender, caller), caller, sender), caller, i, status), next)
  {
    var linked := AddFriend(AddFriend(users, sender, caller), caller, sender);
    AcceptanceIsMutual(users, caller, sender);
    assert UsersConsistent(linked, next);
    StatusKeepsConsistent(users, next, caller, i, status);
    StatusKeepsConsistent(linked, next, caller, i, status);
  }

  /** Writing a status into one request keeps every request id fresh and
      distinct, and touches no friend list. */
  lemma StatusKeepsConsistent(users: map<UserId, User>, next: RequestId, caller: UserId, i: nat, status: Status)
    requires UsersConsistent(users, next)
    requires caller in users && i < |users[caller].friendRequests|
    ensures UsersConsistent(SetRequestStatus(users, caller, i, status), next)
  {
    var reqs := users[caller].friendRequests;
    var after := WithStatus(reqs, i, status);
    assert forall j :: 0 <= j < |after| ==> after[j].id == reqs[j].id;
    assert forall r :: r in after ==> r.id < next;
  }

  /** `sendFriendRequest`. An unknown recipient yields NotFound and changes
      nothing. The duplicate check runs as written (see
      `FriendRequests.ExistingCheckNeverMatches`); when it lets the request
      through, exactly one pending record from the caller is appended to the
      recipient's list and no other user changes. The cache is not touched. */
  method SendFriendRequest(db: Db, caller: UserId, to: UserId) returns (r: Outcome<()>)
    requires db.Valid()
    modifies db`users, db`nextRequestId
    ensures db.Valid()
    ensures r.NotFound? <==> to !in old(db.users)
    ensures r.Conflict? <==> to in old(db.users) && FindExistingAsWritten(old(db.users)[to].friendRequests).Some?
    ensures !r.Ok? ==> db.users == old(db.users) && db.nextRequestId == old(db.nextRequestId)
    ensures r.Ok? || r.NotFound? || r.Conflict?
    ensures r.Ok? ==>
      && to in old(db.users)
      && db.nextRequestId == old(db.nextRequestId) + 1
      && db.users == old(db.users)[to := old(db.users)[to].(friendRequests :=
           old(db.users)[to].friendRequests + [FriendRequest(old(db.nextRequestId), caller, Pending)])]
  {
    if to !in db.users {
      r := NotFound;
      return;
    }
    var recipient := db.users[to];
    if FindExistingAsWritten(recipient.friendRequests).Some? {
      r := Conflict;
      return;
    }
    var request := FriendRequest(db.nextRequestId, caller, Pending);
    db.users := db.users[to := recipient.(friendRequests := recipient.friendRequests + [request])];
    db.nextRequestId := db.nextRequestId + 1;
    r := Ok(());
  }

  /** `respondFriendRequest`. A missing responder, or no pending request
      with the id, yields NotFound and changes nothing; so does a second
      answer to a request already answered. On `Accepted` each party is
      pushed onto the other's friend list, the sender's record first; a
      missing sender record makes that fail before anything is saved. The
      response is written into the request's status whatever it is, and any
      other response leaves every friend list alone. After success exactly
      the responder's and the sender's feeds are deleted. */
  method RespondFriendRequest(db: Db, cache: FeedCache, caller: UserId, requestId: RequestId, response: Status)
    returns (r: Outcome<()>)
    requires db.Valid()
    modifies db`users, cache`entries
    ensures db.Valid()
    ensures r.Ok? || r.NotFound? || r.Failed?
    ensures r.NotFound? <==>
      caller !in old(db.users) || FindPending(old(db.users)[caller].friendRequests, requestId).None?
    ensures !r.Ok? ==> db.users == old(db.users) && cache.entries == old(cache.entries)
    ensures caller in old(db.users) && FindPending(old(db.users)[caller].friendRequests, requestId).Some? ==>
      var i := FindPending(old(db.users)[caller].friendRequests, requestId).value;
      var sender := old(db.users)[caller].friendRequests[i].from;
      && (r.Failed? <==> response == Accepted && sender !in old(db.users))
      && (r.Ok? && response == Accepted ==>
            db.users == SetRequestStatus(AddFriend(AddFriend(old(db.users), sender, caller), caller, sender), caller, i, response))
      && (r.Ok? && response != Accepted ==>
            db.users == SetRequestStatus(old(db.users), caller, i, response))
      && (r.Ok? ==> cache.entries == DeleteAll(old(cache.entries), [caller, sender]))
  {
    if caller !in db.users {
      r := NotFound;
      return;
    }
    var found := FindPending(db.users[caller].friendRequests, requestId);
    if found.None? {
      r := NotFound;
      return;
    }
    var i := found.value;
    var sender := db.users[caller].friendRequests[i].from;
    if response == Accepted {
      if sender !in db.users {
        r := Failed;
        return;
      }
      RespondKeepsConsistent(db.users, db.nextRequestId, caller, sender, i, response);
      db.users := AddFriend(db.users, sender, caller);
      db.users := AddFriend(db.users, caller, sender);
    } else {
      StatusKeepsConsistent(db.users, db.nextRequestId, caller, i, response);
    }
    db.users := SetRequestStatus(db.users, caller, i, response);
    cache.InvalidateCache([caller, sender]);
    r := Ok(());
  }

  /** `getFriends`: the caller's friend list as stored, each id naming a
      stored user; NotFound for a missing caller. */
  method GetFriends(db: Db, caller: UserId) returns (r: Outcome<seq<UserId>>)
    requires db.Valid()
    ensures r.NotFound? || r.Ok?
    ensures r.NotFound? <==> caller !in db.users
    ensures r.Ok? ==> r.value == db.users[caller].friends && forall f :: f in r.value ==> f in db.users
  {
    if caller !in db.users {
      r := NotFound;
    } else {
      r := Ok(db.users[caller].friends);
    }
  }

  /** `getPendingRequests`: the caller's records whose status is pending,
      in stored order; NotFound for a missing caller. */
  method GetPendingRequests(db: Db, caller: UserId) returns (r: Outcome<seq<FriendRequest>>)
    ensures r.NotFound? || r.Ok?
    ensures r.NotFound? <==> caller !in db.users
    ensures r.Ok? ==> r.value == PendingRequests(db.users[caller].friendRequests)
    ensures r.Ok? ==> forall x :: x in r.value <==> x in db.users[caller].friendRequests && x.status == Pending
  {
    if caller !in db.users {
      r := NotFound;
    } else {
      r := Ok(PendingRequests(db.users[caller].friendRequests));
    }
  }
}
