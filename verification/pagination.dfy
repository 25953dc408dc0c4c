/**
 Cursor-driven pagination drain (`getAllUsers`).

 The external paginated endpoint (followers or following of one account) is
 modelled as the finite sequence of replies it gives, in order: the i-th fetch
 receives the i-th reply. A reply is either a page of users together with the
 `next_max_id` continuation cursor, or an upstream failure (the awaited call
 throws). The drain starts with a null cursor, appends every page's users,
 threads each page's cursor into the next fetch, and stops after the first page
 whose cursor is falsy; a failure aborts the drain with no partial result.
 */
module Pagination {
  import opened Outcomes

  /** The `next_max_id` continuation token as the source sees it. */
  datatype Cursor = Null | Undefined | Token(id: string)

  /**
   JavaScript truthiness of a cursor, the loop's exit test: null, undefined
   and the empty string end the loop, and only a non-empty token continues it.
   */
  function Falsy(c: Cursor): (b: bool)
    ensures !b <==> c.Token? && |c.id| > 0
  {
    c.Null? || c.Undefined? || c == Token("")
  }

  /** An account record; only its username is used by the rest of the system. */
  datatype User = User(username: string)

  /** One page of a paginated relation. */
  datatype Page = Page(users: seq<User>, nextMaxId: Cursor)

  /** Whatever the upstream call throws; its content is opaque here. */
  datatype UpstreamError = UpstreamError(message: string)

  /** What one awaited fetch yields. */
  datatype Reply = Served(page: Page) | Failed(error: UpstreamError)

  /** A reply after which the drain performs no further fetch. */
  predicate Ends(r: Reply) {
    r.Failed? || Falsy(r.page.nextMaxId)
  }

  /** Some reply of the sequence ends the drain, so the loop terminates. */
  predicate Terminates(replies: seq<Reply>)
    decreases |replies|
  {
    |replies| > 0 && (Ends(replies[0]) || Terminates(replies[1..]))
  }

  /** Index of the first reply that ends the drain. */
  function StopIndex(replies: seq<Reply>): (k: nat)
    requires Terminates(replies)
    ensures k < |replies| && Ends(replies[k])
    ensures forall i :: 0 <= i < k ==> !Ends(replies[i])
    decreases |replies|
  {
    if Ends(replies[0]) then 0 else 1 + StopIndex(replies[1..])
  }

  predicate AllServed(replies: seq<Reply>) {
    forall i :: 0 <= i < |replies| ==> replies[i].Served?
  }

  /**
   The users of the given pages, page after page, as the accumulator grows by
   appending each fetched page: every user on a page is collected, and nothing
   that is on no page.
   */
  function Concat(replies: seq<Reply>): (users: seq<User>)
    requires AllServed(replies)
    ensures forall u :: u in users ==>
              exists j :: 0 <= j < |replies| && u in replies[j].page.users
    ensures forall j, u :: 0 <= j < |replies| && u in replies[j].page.users ==> u in users
    decreases |replies|
  {
    if |replies| == 0 then []
    else
      var init := replies[..|replies| - 1];
      assert forall j :: 0 <= j < |init| ==> init[j] == replies[j];
      Concat(init) + replies[|replies| - 1].page.users
  }

  /**
   The cursors a drain sends, one per fetch: null first, then the cursor of
   every page before the one that ends the drain.
   */
  function CursorsSent(replies: seq<Reply>): (cursors: seq<Cursor>)
    requires Terminates(replies)
    ensures |cursors| == StopIndex(replies) + 1
    ensures cursors[0] == Null
    ensures forall i :: 0 < i < |cursors| ==>
              replies[i - 1].Served? && cursors[i] == replies[i - 1].page.nextMaxId
    ensures forall i :: 0 < i < |cursors| ==> !Falsy(cursors[i])
  {
    var k := StopIndex(replies);
    [Null] + seq(k, i requires 0 <= i < k => replies[i].page.nextMaxId)
  }

  /**
   The drain loop. Returns the accumulated users (or the upstream failure) and
   the cursor passed as `maxId` on each fetch, in order.
   */
  method GetAllUsers(replies: seq<Reply>)
    returns (users: Result<seq<User>, UpstreamError>, requests: seq<Cursor>)
    requires Terminates(replies)
    ensures |requests| == StopIndex(replies) + 1
    ensures requests[0] == Null
    ensures forall i :: 0 < i < |requests| ==>
              replies[i - 1].Served? && requests[i] == replies[i - 1].page.nextMaxId
    ensures requests == CursorsSent(replies)
    ensures users.Failure? <==> replies[StopIndex(replies)].Failed?
    ensures users.Failure? ==> users.error == replies[StopIndex(replies)].error
    ensures users.Success? ==>
              AllServed(replies[..StopIndex(replies) + 1]) &&
              users.value == Concat(replies[..StopIndex(replies) + 1])
  {
    ghost var k := StopIndex(replies);
    var acc: seq<User> := [];
    var cursor := Null;
    var i := 0;
    requests := [];
    while true
      invariant 0 <= i <= k
      invariant |requests| == i
      invariant forall j :: 0 <= j < i ==> replies[j].Served?
      invariant acc == Concat(replies[..i])
      invariant i == 0 ==> cursor == Null
      invariant i > 0 ==> cursor == replies[i - 1].page.nextMaxId
      invariant i > 0 ==> requests[0] == Null
      invariant forall j :: 0 < j < i ==> requests[j] == replies[j - 1].page.nextMaxId
      decreases k - i
    {
      requests := requests + [cursor];
      match replies[i]
      case Failed(e) =>
        users := Failure(e);
        return;
      case Served(p) =>
        assert replies[..i + 1][..i] == replies[..i];
        acc := acc + p.users;
        cursor := p.nextMaxId;
        i := i + 1;
        if Falsy(cursor) {
          users := Success(acc);
          return;
        }
    }
  }

  /** Concatenation distributes over splitting the fetched pages. */
  lemma {:induction false} ConcatAppend(a: seq<Reply>, b: seq<Reply>)
    requires AllServed(a) && AllServed(b)
    ensures AllServed(a + b)
    ensures Concat(a + b) == Concat(a) + Concat(b)
    decreases |b|
  {
    assert forall i :: 0 <= i < |a + b| ==> (a + b)[i] == if i < |a| then a[i] else b[i - |a|];
    if |b| == 0 {
      assert a + b == a;
    } else {
      var b' := b[..|b| - 1];
      ConcatAppend(a, b');
      assert (a + b)[..|a + b| - 1] == a + b';
      ConcatLast(a + b, Concat(a) + Concat(b'));
    }
  }

  /** Appending one more page to a run whose users are known. */
  lemma ConcatLast(replies: seq<Reply>, init: seq<User>)
    requires |replies| > 0 && AllServed(replies)
    requires AllServed(replies[..|replies| - 1])
    requires Concat(replies[..|replies| - 1]) == init
    ensures Concat(replies) == init + replies[|replies| - 1].page.users
  {
  }

  /**
   Replies the drain never reaches cannot change what it computes: the first
   k+1 replies determine the stop index, whatever follows them.
   */
  lemma {:induction false} StopIgnoresLaterReplies(replies: seq<Reply>, later: seq<Reply>)
    requires Terminates(replies)
    ensures Terminates(replies[..StopIndex(replies) + 1] + later)
    ensures StopIndex(replies[..StopIndex(replies) + 1] + later) == StopIndex(replies)
    decreases |replies|
  {
    var k := StopIndex(replies);
    var t := replies[..k + 1] + later;
    if k == 0 {
      assert t[0] == replies[0];
    } else {
      var rest := replies[1..];
      StopIgnoresLaterReplies(rest, later);
      assert StopIndex(rest) == k - 1;
      assert t[0] == replies[0];
      assert t[1..] == rest[..k] + later;
    }
  }

  /**
   Whatever reply ends the drain first (a page with a falsy cursor, or a
   failure after n good pages) is the last one fetched: the drain performs
   exactly n+1 fetches.
   */
  lemma {:induction false} StopsAtFirstEnd(replies: seq<Reply>, n: nat)
    requires n < |replies| && Ends(replies[n])
    requires forall j :: 0 <= j < n ==> !Ends(replies[j])
    ensures Terminates(replies)
    ensures StopIndex(replies) == n
    decreases n
  {
    if n > 0 {
      StopsAtFirstEnd(replies[1..], n - 1);
    }
  }
}
