/**
 * The follow table as the two follow handlers change it: one row per
 * (user, author) edge, rows in creation order.
 */
module FollowEdges {

  import opened Models

  /** Nobody follows themselves. */
  predicate NoSelfFollow(follows: seq<Follow>)
  {
    forall e :: e in follows ==> e.user != e.author
  }

  /** No edge is stored twice. */
  predicate NoDuplicateEdges(follows: seq<Follow>)
  {
    forall i, j :: 0 <= i < j < |follows| ==> follows[i] != follows[j]
  }

  /** How many rows hold edge `e`. */
  function Count(follows: seq<Follow>, e: Follow): (n: nat)
    ensures n <= |follows|
    ensures n == 0 <==> e !in follows
  {
    if follows == [] then 0
    else Count(follows[..|follows| - 1], e) + (if follows[|follows| - 1] == e then 1 else 0)
  }

  /** Without duplicates, every edge is stored at most once. */
  lemma {:induction false} CountAtMostOne(follows: seq<Follow>, e: Follow)
    requires NoDuplicateEdges(follows)
    ensures Count(follows, e) == if e in follows then 1 else 0
  {
    if follows != [] {
      var earlier := follows[..|follows| - 1];
      assert NoDuplicateEdges(earlier);
      CountAtMostOne(earlier, e);
      if follows[|follows| - 1] == e {
        assert e !in earlier;
      } else {
        assert follows == earlier + [follows[|follows| - 1]];
      }
    }
  }

  /**
   * profile_follow's effect: add (user, author) unless user is the author
   * or the edge is already there.
   */
  function AfterFollow(follows: seq<Follow>, user: UserName, author: UserName): (r: seq<Follow>)
    ensures Follow(user, author) in r <==> user != author || Follow(user, author) in follows
    ensures forall e :: e != Follow(user, author) ==> (e in r <==> e in follows)
    ensures user == author ==> r == follows
  {
    if author != user && Follow(user, author) !in follows then follows + [Follow(user, author)]
    else follows
  }

  /** Following keeps the table free of self-follows and duplicates. */
  lemma FollowKeepsTable(follows: seq<Follow>, user: UserName, author: UserName)
    requires NoSelfFollow(follows) && NoDuplicateEdges(follows)
    ensures NoSelfFollow(AfterFollow(follows, user, author))
    ensures NoDuplicateEdges(AfterFollow(follows, user, author))
  {
    var r := AfterFollow(follows, user, author);
    if r != follows {
      forall i, j | 0 <= i < j < |r| ensures r[i] != r[j] {
        if j == |follows| {
          assert r[i] in follows;
        }
      }
    }
  }

  /** Following an author twice leaves exactly one edge for the pair. */
  lemma FollowTwice(follows: seq<Follow>, user: UserName, author: UserName)
    requires NoSelfFollow(follows) && NoDuplicateEdges(follows)
    requires user != author
    ensures Count(AfterFollow(AfterFollow(follows, user, author), user, author), Follow(user, author)) == 1
  {
    var once := AfterFollow(follows, user, author);
    FollowKeepsTable(follows, user, author);
    assert AfterFollow(once, user, author) == once;
    CountAtMostOne(once, Follow(user, author));
  }

  /**
   * profile_unfollow's effect on the table: drop the rows holding `e`
   * (in a table without duplicates, the one row objects.get finds).
   */
  function Without(follows: seq<Follow>, e: Follow): (r: seq<Follow>)
    ensures forall x :: x in r <==> x in follows && x != e
    ensures |r| <= |follows|
  {
    if follows == [] then []
    else
      var rest := Without(follows[1..], e);
      assert follows == [follows[0]] + follows[1..];
      (if follows[0] == e then [] else [follows[0]]) + rest
  }

  /** Removing a stored edge from a table without duplicates removes exactly that one row. */
  lemma {:induction false} WithoutRemovesOneRow(follows: seq<Follow>, e: Follow)
    requires NoDuplicateEdges(follows) && e in follows
    ensures multiset(Without(follows, e)) == multiset(follows) - multiset{e}
    ensures |Without(follows, e)| == |follows| - 1
  {
    var tail := follows[1..];
    assert follows == [follows[0]] + tail;
    assert NoDuplicateEdges(tail);
    if follows[0] == e {
      assert e !in tail;
      WithoutIsIdentity(tail, e);
    } else {
      WithoutRemovesOneRow(tail, e);
    }
  }

  /** Dropping an edge that is not stored changes nothing. */
  lemma {:induction false} WithoutIsIdentity(follows: seq<Follow>, e: Follow)
    requires e !in follows
    ensures Without(follows, e) == follows
  {
    if follows != [] {
      assert follows == [follows[0]] + follows[1..];
      WithoutIsIdentity(follows[1..], e);
    }
  }

  /** Unfollowing keeps the table free of self-follows and duplicates. */
  lemma {:induction false} UnfollowKeepsTable(follows: seq<Follow>, e: Follow)
    requires NoSelfFollow(follows) && NoDuplicateEdges(follows)
    ensures NoSelfFollow(Without(follows, e))
    ensures NoDuplicateEdges(Without(follows, e))
  {
    if follows != [] {
      var tail := follows[1..];
      assert follows == [follows[0]] + tail;
      assert NoDuplicateEdges(tail);
      UnfollowKeepsTable(tail, e);
      var rest := Without(tail, e);
      if follows[0] != e {
        assert follows[0] !in rest;
      }
    }
  }

  /**
   * Following and then unfollowing an author leaves no edge for the pair,
   * and every other edge as it was.
   */
  lemma FollowThenUnfollow(follows: seq<Follow>, user: UserName, author: UserName)
    ensures Count(Without(AfterFollow(follows, user, author), Follow(user, author)), Follow(user, author)) == 0
    ensures forall e :: e != Follow(user, author) ==>
      (e in Without(AfterFollow(follows, user, author), Follow(user, author)) <==> e in follows)
  {
  }
}
