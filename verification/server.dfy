/**
 The `/api/followers` handler: validation, user-id lookup, the two drains
 (followers first, then following) and the not-following-back report, with the
 HTTP answer each outcome produces.

 The upstream client built from the cookies is modelled by what it does for
 this request: the outcome of the id lookup and the reply sequences of the two
 paginated relations. The handler also returns the log of upstream calls it
 made, in order.
 */
module Server {
  import opened Outcomes
  import opened Pagination
  import opened Validation
  import opened Reconcile

  /** The JSON request body `{ cookies, username }`; either field may be absent. */
  datatype RequestBody = RequestBody(cookies: Option<string>, username: Option<string>)

  /** The account id `getIdByUsername` resolves to; opaque here. */
  datatype UserId = UserId(id: string)

  /** The behaviour of the upstream client for one request. */
  datatype Upstream = Upstream(
    idLookup: Result<UserId, UpstreamError>,
    followers: seq<Reply>,
    following: seq<Reply>)

  /** One call into the upstream client. */
  datatype Call =
    | GetIdByUsername(username: string)
    | GetFollowers(userId: UserId, maxId: Cursor)
    | GetFollowing(userId: UserId, maxId: Cursor)

  datatype Body = ErrorBody(error: string) | Report(notFollowingBack: seq<string>)

  datatype HttpResponse = HttpResponse(status: nat, body: Body)

  const RequiredMessage := "Cookies and username are required."
  const InvalidMessage := "Invalid input format."
  const FailureMessage := "An error occurred while processing your request."

  function FollowersCalls(userId: UserId, cursors: seq<Cursor>): (calls: seq<Call>)
    ensures |calls| == |cursors|
    ensures forall i :: 0 <= i < |cursors| ==> calls[i] == GetFollowers(userId, cursors[i])
  {
    seq(|cursors|, i requires 0 <= i < |cursors| => GetFollowers(userId, cursors[i]))
  }

  function FollowingCalls(userId: UserId, cursors: seq<Cursor>): (calls: seq<Call>)
    ensures |calls| == |cursors|
    ensures forall i :: 0 <= i < |cursors| ==> calls[i] == GetFollowing(userId, cursors[i])
  {
    seq(|cursors|, i requires 0 <= i < |cursors| => GetFollowing(userId, cursors[i]))
  }

  /**
   The drain of `replies` yields all its pages: its ending reply is a page
   (so every fetched reply is one).
   */
  predicate DrainSucceeds(replies: seq<Reply>)
    requires Terminates(replies)
  {
    replies[StopIndex(replies)].Served? && AllServed(replies[..StopIndex(replies) + 1])
  }

  /** The users a successful drain collects. */
  function Drained(replies: seq<Reply>): seq<User>
    requires Terminates(replies) && DrainSucceeds(replies)
  {
    Concat(replies[..StopIndex(replies) + 1])
  }

  /**
   The part of the handler after the id lookup: drain followers, then (only if
   that succeeded) following, and compute the report. Any failure discards
   whatever was fetched.
   */
  method DrainAndReport(userId: UserId, followers: seq<Reply>, following: seq<Reply>)
    returns (report: Result<seq<string>, UpstreamError>, calls: seq<Call>)
    requires Terminates(followers)
    requires DrainSucceeds(followers) ==> Terminates(following)
    ensures calls == FollowersCalls(userId, CursorsSent(followers))
                     + (if DrainSucceeds(followers)
                        then FollowingCalls(userId, CursorsSent(following)) else [])
    ensures report.Success? <==> DrainSucceeds(followers) && DrainSucceeds(following)
    ensures report.Success? ==>
              report.value == NotFollowingBack(Drained(followers), Drained(following))
  {
    var followersData, followersCursors := GetAllUsers(followers);
    calls := FollowersCalls(userId, followersCursors);
    if followersData.Failure? {
      assert !DrainSucceeds(followers);
      report := Failure(followersData.error);
      return;
    }
    assert DrainSucceeds(followers);
    assert followersData.value == Drained(followers);
    var followingData, followingCursors := GetAllUsers(following);
    calls := calls + FollowingCalls(userId, followingCursors);
    if followingData.Failure? {
      assert !DrainSucceeds(following);
      report := Failure(followingData.error);
      return;
    }
    assert DrainSucceeds(following);
    assert followingData.value == Drained(following);
    report := Success(NotFollowingBack(followersData.value, followingData.value));
  }

  method HandleFollowers(request: RequestBody, upstream: Upstream)
    returns (response: HttpResponse, calls: seq<Call>)
    // Only the drains the handler actually starts must terminate.
    requires Validate(request.cookies, request.username).Success? && upstream.idLookup.Success? ==>
               Terminates(upstream.followers)
    requires Validate(request.cookies, request.username).Success? && upstream.idLookup.Success? &&
             DrainSucceeds(upstream.followers) ==>
               Terminates(upstream.following)
    // Rejected requests are answered 400 before any upstream call.
    ensures Validate(request.cookies, request.username) == Failure(MissingFields) ==>
              response == HttpResponse(400, ErrorBody(RequiredMessage)) && calls == []
    ensures Validate(request.cookies, request.username) == Failure(InvalidFormat) ==>
              response == HttpResponse(400, ErrorBody(InvalidMessage)) && calls == []
    // Valid requests resolve the username first; a failed lookup fetches no page.
    ensures Validate(request.cookies, request.username).Success? ==>
              |calls| > 0 && calls[0] == GetIdByUsername(request.username.value)
    ensures Validate(request.cookies, request.username).Success? && upstream.idLookup.Failure? ==>
              response == HttpResponse(500, ErrorBody(FailureMessage)) &&
              calls == [GetIdByUsername(request.username.value)]
    // Then followers are drained, and following only if that drain succeeded.
    ensures Validate(request.cookies, request.username).Success? && upstream.idLookup.Success? ==>
              calls == [GetIdByUsername(request.username.value)]
                       + FollowersCalls(upstream.idLookup.value, CursorsSent(upstream.followers))
                       + (if DrainSucceeds(upstream.followers)
                          then FollowingCalls(upstream.idLookup.value, CursorsSent(upstream.following))
                          else [])
    // Success exactly when every step succeeded; any upstream failure is a 500 with no partial report.
    ensures response.status == 200 <==>
              && Validate(request.cookies, request.username).Success?
              && upstream.idLookup.Success?
              && DrainSucceeds(upstream.followers)
              && DrainSucceeds(upstream.following)
    ensures response.status == 200 ==>
              response.body ==
                Report(NotFollowingBack(Drained(upstream.followers), Drained(upstream.following)))
    ensures response.status != 200 ==> response.body.ErrorBody?
    ensures Validate(request.cookies, request.username).Success? && response.status != 200 ==>
              response == HttpResponse(500, ErrorBody(FailureMessage))
  {
    var validated := Validate(request.cookies, request.username);
    if validated.Failure? {
      calls := [];
      var message := if validated.error == MissingFields then RequiredMessage else InvalidMessage;
      response := HttpResponse(400, ErrorBody(message));
      return;
    }
    var lookup := [GetIdByUsername(validated.value.username)];
    if upstream.idLookup.Failure? {
      calls := lookup;
      response := HttpResponse(500, ErrorBody(FailureMessage));
      return;
    }
    var report, fetches := DrainAndReport(upstream.idLookup.value, upstream.followers, upstream.following);
    calls := lookup + fetches;
    if report.Failure? {
      response := HttpResponse(500, ErrorBody(FailureMessage));
    } else {
      response := HttpResponse(200, Report(report.value));
    }
  }

  /**
   End to end: a username is reported exactly when it appears on some page of
   the following drain and on no page of the followers drain.
   */
  lemma ReportMembership(followers: seq<Reply>, following: seq<Reply>, x: string)
    requires Terminates(followers) && DrainSucceeds(followers)
    requires Terminates(following) && DrainSucceeds(following)
    ensures x in NotFollowingBack(Drained(followers), Drained(following)) <==>
              && OnSomePage(following[..StopIndex(following) + 1], x)
              && !OnSomePage(followers[..StopIndex(followers) + 1], x)
  {
    var fs := followers[..StopIndex(followers) + 1];
    var gs := following[..StopIndex(following) + 1];
    ReportedIffOnPages(fs, gs, x);
  }

  lemma ReportedIffOnPages(fs: seq<Reply>, gs: seq<Reply>, x: string)
    requires AllServed(fs) && AllServed(gs)
    ensures x in NotFollowingBack(Concat(fs), Concat(gs)) <==>
              OnSomePage(gs, x) && !OnSomePage(fs, x)
  {
    OnSomePageOfConcat(fs, x);
    OnSomePageOfConcat(gs, x);
  }

  /** Some fetched page lists an account with username `x`. */
  predicate OnSomePage(replies: seq<Reply>, x: string)
    requires AllServed(replies)
  {
    exists j, i :: 0 <= j < |replies| && 0 <= i < |replies[j].page.users| &&
                   replies[j].page.users[i].username == x
  }

  lemma OnSomePageOfConcat(replies: seq<Reply>, x: string)
    requires AllServed(replies)
    ensures OnSomePage(replies, x) <==>
              exists i :: 0 <= i < |Concat(replies)| && Concat(replies)[i].username == x
  {
    var all := Concat(replies);
    if OnSomePage(replies, x) {
      var j, i :| 0 <= j < |replies| && 0 <= i < |replies[j].page.users| &&
                  replies[j].page.users[i].username == x;
      var u := replies[j].page.users[i];
      assert u in replies[j].page.users;
      assert u in all;
      var k :| 0 <= k < |all| && all[k] == u;
      assert Concat(replies)[k].username == x;
    }
    if k :| 0 <= k < |all| && all[k].username == x {
      assert all[k] in all;
      var j :| 0 <= j < |replies| && all[k] in replies[j].page.users;
      var i :| 0 <= i < |replies[j].page.users| && replies[j].page.users[i] == all[k];
      assert replies[j].page.users[i].username == x;
      assert Concat(replies)[k].username == x;
    }
  }
}
