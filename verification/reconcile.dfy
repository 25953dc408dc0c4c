/**
 The not-following-back computation of the `/api/followers` handler.

 Follower usernames are gathered into a set; the following usernames, in their
 fetched order and with any duplicates, are kept exactly when they are not in
 that set. Names are compared by exact, case-sensitive string equality.
 */
module Reconcile {
  import opened Pagination

  /**
   The set of usernames of `users`: a name is in it exactly when some user
   has it, so duplicates and order are forgotten.
   */
  function UsernameSet(users: seq<User>): (names: set<string>)
    ensures forall x :: x in names <==> exists i :: 0 <= i < |users| && users[i].username == x
  {
    var names := set u | u in users :: u.username;
    assert forall x :: x in names ==> exists i :: 0 <= i < |users| && users[i].username == x by {
      forall x | x in names ensures exists i :: 0 <= i < |users| && users[i].username == x {
        var u :| u in users && u.username == x;
        var i :| 0 <= i < |users| && users[i] == u;
      }
    }
    names
  }

  /**
   The usernames of `users`, one per user and in the same order. The list
   holds exactly the names of the corresponding set.
   */
  function Usernames(users: seq<User>): (names: seq<string>)
    ensures |names| == |users|
    ensures forall i :: 0 <= i < |users| ==> names[i] == users[i].username
    ensures forall x :: x in names <==> x in UsernameSet(users)
  {
    seq(|users|, i requires 0 <= i < |users| => users[i].username)
  }

  /** `a` can be obtained from `b` by deleting elements, keeping the rest in order. */
  predicate IsSubsequence<T(==)>(a: seq<T>, b: seq<T>)
    decreases |b|
  {
    if |a| == 0 then true
    else if |b| == 0 then false
    else if a[0] == b[0] then IsSubsequence(a[1..], b[1..])
    else IsSubsequence(a, b[1..])
  }

  /** The names of `names` that are not in `excluded`, kept in order with their repetitions. */
  function Without(names: seq<string>, excluded: set<string>): (r: seq<string>)
    ensures forall x :: x in r <==> x in names && x !in excluded
    ensures forall x :: multiset(r)[x] == if x in excluded then 0 else multiset(names)[x]
    ensures IsSubsequence(r, names)
    decreases |names|
  {
    if |names| == 0 then []
    else
      assert names == [names[0]] + names[1..];
      if names[0] in excluded then Without(names[1..], excluded)
      else [names[0]] + Without(names[1..], excluded)
  }

  /** The usernames in `following` that do not follow back. */
  function NotFollowingBack(followers: seq<User>, following: seq<User>): (r: seq<string>)
    ensures forall x :: x in r <==>
              (exists i :: 0 <= i < |following| && following[i].username == x) &&
              (forall j :: 0 <= j < |followers| ==> followers[j].username != x)
    ensures IsSubsequence(r, Usernames(following))
    ensures forall x :: multiset(r)[x] ==
              if x in UsernameSet(followers) then 0 else multiset(Usernames(following))[x]
  {
    Without(Usernames(following), UsernameSet(followers))
  }

  /** Deleting elements can only lower multiplicities. */
  lemma {:induction false} SubsequenceCounts<T>(a: seq<T>, b: seq<T>)
    requires IsSubsequence(a, b)
    ensures multiset(a) <= multiset(b)
    decreases |b|
  {
    if |a| > 0 {
      assert b == [b[0]] + b[1..];
      if a[0] == b[0] {
        assert a == [a[0]] + a[1..];
        SubsequenceCounts(a[1..], b[1..]);
      } else {
        SubsequenceCounts(a, b[1..]);
      }
    }
  }

  /**
   The contract of `Without` pins its result down: the only order-preserving
   subsequence of `names` that keeps every non-excluded occurrence and drops
   every excluded one is the filter itself.
   */
  lemma {:induction false} WithoutIsUnique(names: seq<string>, excluded: set<string>, r: seq<string>)
    requires IsSubsequence(r, names)
    requires forall x :: multiset(r)[x] == if x in excluded then 0 else multiset(names)[x]
    ensures r == Without(names, excluded)
    decreases |names|
  {
    if |names| == 0 {
      assert |r| == 0;
    } else {
      var n := names[0];
      var rest := names[1..];
      assert names == [n] + rest;
      if n in excluded {
        if |r| > 0 {
          assert r[0] in multiset(r);
          assert r[0] != n;
        }
        assert IsSubsequence(r, rest);
        WithoutIsUnique(rest, excluded, r);
      } else {
        assert multiset(r)[n] == multiset(names)[n] > 0;
        assert |r| > 0;
        assert r == [r[0]] + r[1..];
        if r[0] == n {
          assert IsSubsequence(r[1..], rest);
          WithoutIsUnique(rest, excluded, r[1..]);
        } else {
          assert IsSubsequence(r, rest);
          SubsequenceCounts(r, rest);
          assert false;
        }
      }
    }
  }

  /** Nothing excluded: the filter is the identity. */
  lemma {:induction false} WithoutNothing(names: seq<string>)
    ensures Without(names, {}) == names
    decreases |names|
  {
    if |names| > 0 {
      WithoutNothing(names[1..]);
    }
  }

  /** No followers: every followed account is reported, in order. */
  lemma NoFollowersReportsAll(following: seq<User>)
    ensures NotFollowingBack([], following) == Usernames(following)
  {
    assert UsernameSet([]) == {};
    WithoutNothing(Usernames(following));
  }

  /** Followers and following share no username: all of following is reported. */
  lemma DisjointReportsAll(followers: seq<User>, following: seq<User>)
    requires forall i, j :: 0 <= i < |following| && 0 <= j < |followers| ==>
               following[i].username != followers[j].username
    ensures NotFollowingBack(followers, following) == Usernames(following)
  {
    var names := Usernames(following);
    var excluded := UsernameSet(followers);
    assert names == Without(names, excluded) by {
      WithoutDisjoint(names, excluded);
    }
  }

  /** Filtering out names none of which occur changes nothing. */
  lemma {:induction false} WithoutDisjoint(names: seq<string>, excluded: set<string>)
    requires forall i :: 0 <= i < |names| ==> names[i] !in excluded
    ensures Without(names, excluded) == names
    decreases |names|
  {
    if |names| > 0 {
      WithoutDisjoint(names[1..], excluded);
    }
  }

  /** Every followed account follows back: nothing is reported. */
  lemma AllFollowBackReportsNone(followers: seq<User>, following: seq<User>)
    requires forall i :: 0 <= i < |following| ==>
               exists j :: 0 <= j < |followers| && followers[j].username == following[i].username
    ensures NotFollowingBack(followers, following) == []
  {
  }

  /** Following nobody: nothing is reported. */
  lemma NoFollowingReportsNone(followers: seq<User>)
    ensures NotFollowingBack(followers, []) == []
  {
  }

  /** A small example: followers a, b and following b, c, d report c, d. */
  lemma ExampleReport()
    ensures NotFollowingBack([User("a"), User("b")], [User("b"), User("c"), User("d")])
            == ["c", "d"]
  {
    var excluded := UsernameSet([User("a"), User("b")]);
    assert excluded == {"a", "b"};
    var names := Usernames([User("b"), User("c"), User("d")]);
    assert names == ["b", "c", "d"];
    assert Without(["d"], excluded) == ["d"] by {
      assert ["d"][1..] == [];
    }
    assert Without(["c", "d"], excluded) == ["c", "d"] by {
      assert ["c", "d"][1..] == ["d"];
    }
    assert Without(["b", "c", "d"], excluded) == ["c", "d"] by {
      assert ["b", "c", "d"][1..] == ["c", "d"];
    }
  }

  /** Comparison is case-sensitive: a differently cased follower does not count. */
  lemma CaseSensitiveExample()
    ensures NotFollowingBack([User("alice")], [User("Alice")]) == ["Alice"]
  {
    var names := Usernames([User("Alice")]);
    assert names == ["Alice"];
    assert "Alice" != "alice";
    assert names[1..] == [];
  }
}
