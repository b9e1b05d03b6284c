/** The friend-request list of a user record and the queries the user
    controller runs over it: find the pending request to answer, list the
    pending requests, and the duplicate check of `sendFriendRequest`. */
module FriendRequests {
  import opened Model

  /** The record answers to `requestId` and has not been responded to. */
  predicate PendingWithId(r: FriendRequest, requestId: RequestId)
  {
    r.id == requestId && r.status == Pending
  }

  /** `Array.prototype.find` on a request list, as a position: the first
      record the callback accepts, if any. */
  function FindFirst(reqs: seq<FriendRequest>, accepts: FriendRequest -> bool): (r: Option<nat>)
    ensures r.Some? ==> r.value < |reqs| && accepts(reqs[r.value])
    ensures r.Some? ==> forall j :: 0 <= j < r.value ==> !accepts(reqs[j])
    ensures r.None? <==> forall j :: 0 <= j < |reqs| ==> !accepts(reqs[j])
  {
    if reqs == [] then None
    else if accepts(reqs[0]) then Some(0)
    else match FindFirst(reqs[1..], accepts)
      case None => None
      case Some(k) => Some(k + 1)
  }

  /** The lookup of `respondFriendRequest`: the position of the first
      record with the given id whose status is pending, if any. */
  function FindPending(reqs: seq<FriendRequest>, requestId: RequestId): (r: Option<nat>)
    ensures r.Some? ==> r.value < |reqs| && PendingWithId(reqs[r.value], requestId)
    ensures r.Some? ==> forall j :: 0 <= j < r.value ==> !PendingWithId(reqs[j], requestId)
    ensures r.None? <==> forall j :: 0 <= j < |reqs| ==> !PendingWithId(reqs[j], requestId)
  {
    FindFirst(reqs, r => PendingWithId(r, requestId))
  }

  /** No two records of the list share an id. */
  predicate DistinctIds(reqs: seq<FriendRequest>)
  {
    forall i, j :: 0 <= i < j < |reqs| ==> reqs[i].id != reqs[j].id
  }

  /** The list after the record at `i` has been given `status`. */
  function WithStatus(reqs: seq<FriendRequest>, i: nat, status: Status): (r: seq<FriendRequest>)
    requires i < |reqs|
  {
    reqs[i := reqs[i].(status := status)]
  }

  /** Once the found request is given a status other than pending it can no
      longer be found, so a second response to it is refused; a response of
      `Pending` leaves it where it was, ready to be answered again. */
  lemma {:induction false} RespondedRequestClosed(reqs: seq<FriendRequest>, requestId: RequestId, i: nat, status: Status)
    requires DistinctIds(reqs)
    requires FindPending(reqs, requestId) == Some(i)
    ensures FindPending(WithStatus(reqs, i, status), requestId) == if status == Pending then Some(i) else None
  {
    var after := WithStatus(reqs, i, status);
    if status == Pending {
      assert after == reqs;
    } else {
      forall j | 0 <= j < |after|
        ensures !PendingWithId(after[j], requestId)
      {
        if j != i {
          assert reqs[j].id != reqs[i].id;
        }
      }
    }
  }

  /** The filter of `getPendingRequests`: the pending records in stored
      order. */
  function PendingRequests(reqs: seq<FriendRequest>): (r: seq<FriendRequest>)
    ensures forall x :: x in r <==> x in reqs && x.status == Pending
  {
    if reqs == [] then []
    else
      assert reqs == [reqs[0]] + reqs[1..];
      (if reqs[0].status == Pending then [reqs[0]] else []) + PendingRequests(reqs[1..])
  }

  /** The filter keeps each pending record as often as it is stored and
      drops every other record. */
  lemma {:induction false} PendingRequestsCounts(reqs: seq<FriendRequest>)
    ensures forall x :: multiset(PendingRequests(reqs))[x] == if x.status == Pending then multiset(reqs)[x] else 0
  {
    if reqs != [] {
      assert reqs == [reqs[0]] + reqs[1..];
      PendingRequestsCounts(reqs[1..]);
    }
  }

  /** Filtering commutes with concatenation: the pending records keep the
      order in which they were stored. */
  lemma {:induction false} PendingRequestsOfAppend(a: seq<FriendRequest>, b: seq<FriendRequest>)
    ensures PendingRequests(a + b) == PendingRequests(a) + PendingRequests(b)
    decreases |a|
  {
    if a != [] {
      var head := if a[0].status == Pending then [a[0]] else [];
      assert (a + b)[0] == a[0];
      assert (a + b)[1..] == a[1..] + b;
      assert PendingRequests(a + b) == head + PendingRequests(a[1..] + b);
      PendingRequestsOfAppend(a[1..], b);
      assert PendingRequests(a) == head + PendingRequests(a[1..]);
      assert head + (PendingRequests(a[1..]) + PendingRequests(b))
          == (head + PendingRequests(a[1..])) + PendingRequests(b);
    } else {
      assert a + b == b;
    }
  }

  /** A record appended with status pending shows up last in the pending
      list, after everything that was pending before. */
  lemma SendAddsPendingRecord(reqs: seq<FriendRequest>, requestId: RequestId, from: UserId)
    ensures PendingRequests(reqs + [FriendRequest(requestId, from, Pending)])
         == PendingRequests(reqs) + [FriendRequest(requestId, from, Pending)]
  {
    PendingRequestsOfAppend(reqs, [FriendRequest(requestId, from, Pending)]);
  }

  /** The `user` property of a friend-request record. The duplicate check of
      `sendFriendRequest` names its callback parameter `req`, shadowing the
      HTTP request, so it reads this property, which such a record does not
      have: the read yields undefined. */
  function UserProperty(r: FriendRequest): (user: Option<UserId>)
  {
    None
  }

  /** The duplicate check's callback as written: the sender id compared
      with the record's absent `user` property, and the status. */
  predicate MatchesExistingAsWritten(r: FriendRequest)
  {
    Some(r.from) == UserProperty(r) && r.status == Pending
  }

  /** The duplicate check as written: the first record its callback accepts. */
  function FindExistingAsWritten(reqs: seq<FriendRequest>): (r: Option<nat>)
  {
    FindFirst(reqs, MatchesExistingAsWritten)
  }

  /** The duplicate check as written finds nothing in any list, whoever
      sends and however many pending requests they already have. */
  lemma ExistingCheckNeverMatches(reqs: seq<FriendRequest>)
    ensures FindExistingAsWritten(reqs) == None
  {
  }
}
