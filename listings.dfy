/**
 * The read-only queries behind the listing pages: pick the posts a page
 * shows and order them newest first; and the order in which a post's
 * comments are read back.
 */
module Listings {

  import opened Wrappers
  import opened Models

  /** Which posts a listing shows: all, one group's, or one author's. */
  datatype Filter = AllPosts | InGroup(slug: Slug) | ByAuthor(author: UserName)

  predicate Matches(p: Post, f: Filter)
  {
    match f
    case AllPosts => true
    case InGroup(s) => p.group == Some(s)
    case ByAuthor(a) => p.author == a
  }

  predicate AllIn(posts: map<PostId, Post>, ids: seq<PostId>)
  {
    forall id :: id in ids ==> id in posts
  }

  predicate Distinct(ids: seq<PostId>)
  {
    forall i, j :: 0 <= i < j < |ids| ==> ids[i] != ids[j]
  }

  /** Ids of the stored posts below `n`, in increasing order (table order). */
  function IdsBelow(posts: map<PostId, Post>, n: nat): (ids: seq<PostId>)
    ensures forall id :: id in ids <==> id in posts && id < n
    ensures forall i, j :: 0 <= i < j < |ids| ==> ids[i] < ids[j]
  {
    if n == 0 then []
    else
      var lower := IdsBelow(posts, n - 1);
      assert forall i :: 0 <= i < |lower| ==> lower[i] in lower;
      lower + (if n - 1 in posts then [n - 1] else [])
  }

  /** The posts among `ids` that pass `f`, keeping their order. */
  function Select(posts: map<PostId, Post>, ids: seq<PostId>, f: Filter): (r: seq<PostId>)
    requires AllIn(posts, ids)
    ensures AllIn(posts, r)
    ensures forall id :: id in r <==> id in ids && Matches(posts[id], f)
    ensures Distinct(ids) ==> Distinct(r)
  {
    if ids == [] then []
    else
      var rest := Select(posts, ids[1..], f);
      assert Distinct(ids) ==> ids[0] !in ids[1..];
      (if Matches(posts[ids[0]], f) then [ids[0]] else []) + rest
  }

  /**
   * `a` is listed before `b`: it is newer, or as new and created later
   * (the ordering on pub_date leaves ties open; the larger id wins here).
   */
  predicate Before(posts: map<PostId, Post>, a: PostId, b: PostId)
    requires a in posts && b in posts
  {
    posts[a].pubDate > posts[b].pubDate || (posts[a].pubDate == posts[b].pubDate && a > b)
  }

  /** Ordered by descending pub_date, as order_by("-pub_date") asks. */
  predicate NewestFirst(posts: map<PostId, Post>, ids: seq<PostId>)
    requires AllIn(posts, ids)
  {
    forall i, j :: 0 <= i < j < |ids| ==> Before(posts, ids[i], ids[j])
  }

  /** Insert `x` into a newest-first sequence, before the first post it is newer than. */
  function Insert(posts: map<PostId, Post>, x: PostId, s: seq<PostId>): (r: seq<PostId>)
    requires x in posts && AllIn(posts, s)
    ensures |r| == |s| + 1
    ensures forall y :: y in r <==> y == x || y in s
    ensures multiset(r) == multiset(s) + multiset{x}
  {
    if s == [] then [x]
    else if Before(posts, x, s[0]) then [x] + s
    else
      assert s == [s[0]] + s[1..];
      [s[0]] + Insert(posts, x, s[1..])
  }

  /** Inserting a post not yet present keeps a sequence newest first. */
  lemma {:induction false} InsertKeepsOrder(posts: map<PostId, Post>, x: PostId, s: seq<PostId>)
    requires x in posts && AllIn(posts, s)
    requires NewestFirst(posts, s) && x !in s
    ensures AllIn(posts, Insert(posts, x, s))
    ensures NewestFirst(posts, Insert(posts, x, s))
  {
    var r := Insert(posts, x, s);
    if s != [] && !Before(posts, x, s[0]) {
      var tail := s[1..];
      InsertKeepsOrder(posts, x, tail);
      var rest := Insert(posts, x, tail);
      assert r == [s[0]] + rest;
      assert Before(posts, s[0], x);
      forall k | 0 <= k < |rest| ensures Before(posts, s[0], rest[k]) {
        assert rest[k] in rest;
        if rest[k] != x {
          assert rest[k] in tail;
        }
      }
    }
  }

  /** Insertion sort into newest-first order. */
  function Sort(posts: map<PostId, Post>, s: seq<PostId>): (r: seq<PostId>)
    requires AllIn(posts, s)
    ensures |r| == |s|
    ensures forall y :: y in r <==> y in s
    ensures multiset(r) == multiset(s)
  {
    if s == [] then []
    else
      assert s == [s[0]] + s[1..];
      Insert(posts, s[0], Sort(posts, s[1..]))
  }

  /** Sorting distinct posts puts them newest first. */
  lemma {:induction false} SortOrders(posts: map<PostId, Post>, s: seq<PostId>)
    requires AllIn(posts, s) && Distinct(s)
    ensures AllIn(posts, Sort(posts, s))
    ensures NewestFirst(posts, Sort(posts, s))
  {
    if s != [] {
      var tail := s[1..];
      assert Distinct(tail);
      SortOrders(posts, tail);
      assert s[0] !in tail;
      InsertKeepsOrder(posts, s[0], Sort(posts, tail));
    }
  }

  /**
   * A listing page's full query: every stored post below `bound` that
   * passes `f`, newest first, each once.
   */
  function Listing(posts: map<PostId, Post>, bound: nat, f: Filter): (r: seq<PostId>)
    ensures AllIn(posts, r)
    ensures NewestFirst(posts, r)
    ensures forall id :: id in r <==> id in posts && id < bound && Matches(posts[id], f)
  {
    var ids := IdsBelow(posts, bound);
    var chosen := Select(posts, ids, f);
    SortOrders(posts, chosen);
    Sort(posts, chosen)
  }

  /** Any run of consecutive posts of a newest-first sequence is newest first. */
  lemma SliceKeepsOrder(posts: map<PostId, Post>, ids: seq<PostId>, lo: nat, hi: nat)
    requires AllIn(posts, ids) && NewestFirst(posts, ids)
    requires lo <= hi <= |ids|
    ensures AllIn(posts, ids[lo..hi]) && NewestFirst(posts, ids[lo..hi])
  {
    forall id | id in ids[lo..hi] ensures id in ids {
    }
  }

  /** Joining two sequences without a common post keeps every post once. */
  lemma DistinctAppend(a: seq<PostId>, b: seq<PostId>)
    requires Distinct(a) && Distinct(b)
    requires forall x :: x in a ==> x !in b
    ensures Distinct(a + b)
  {
    forall i, j | 0 <= i < j < |a + b| ensures (a + b)[i] != (a + b)[j] {
      if i < |a| && j >= |a| {
        assert (a + b)[i] in a && (a + b)[j] in b;
      }
    }
  }

  /** A newest-first sequence holds no post twice. */
  lemma NewestFirstIsDistinct(posts: map<PostId, Post>, ids: seq<PostId>)
    requires AllIn(posts, ids) && NewestFirst(posts, ids)
    ensures Distinct(ids)
  {
  }

  /**
   * A post created after every other, and no older than any of them, leads
   * every listing it belongs to.
   */
  lemma NewPostLeads(posts: map<PostId, Post>, id: PostId, p: Post, bound: nat, f: Filter)
    requires forall k :: k in posts ==> k < id && posts[k].pubDate <= p.pubDate
    requires id < bound && Matches(p, f)
    ensures |Listing(posts[id := p], bound, f)| > 0
    ensures Listing(posts[id := p], bound, f)[0] == id
  {
    var r := Listing(posts[id := p], bound, f);
    assert id in r;
  }

  /**
   * The comments of post `id`, newest first: later rows of the comment
   * table come first.
   */
  function CommentsOn(comments: seq<Comment>, id: PostId): (r: seq<Comment>)
    ensures forall c :: c in r <==> c in comments && c.post == id
    ensures forall c :: multiset(r)[c] == if c.post == id then multiset(comments)[c] else 0
  {
    if comments == [] then []
    else
      var last := comments[|comments| - 1];
      var earlier := comments[..|comments| - 1];
      assert comments == earlier + [last];
      (if last.post == id then [last] else []) + CommentsOn(earlier, id)
  }

  /** The rows attached to post `id`, in table order. */
  function RowsOn(comments: seq<Comment>, id: PostId): (r: seq<Comment>)
  {
    if comments == [] then []
    else
      (if comments[0].post == id then [comments[0]] else []) + RowsOn(comments[1..], id)
  }

  function Reversed(s: seq<Comment>): (r: seq<Comment>)
    ensures |r| == |s|
  {
    if s == [] then [] else Reversed(s[1..]) + [s[0]]
  }

  lemma {:induction false} ReversedAppend(a: seq<Comment>, b: seq<Comment>)
    ensures Reversed(a + b) == Reversed(b) + Reversed(a)
  {
    if a == [] {
      assert a + b == b;
    } else {
      assert (a + b)[1..] == a[1..] + b;
      ReversedAppend(a[1..], b);
    }
  }

  lemma {:induction false} RowsOnAppend(comments: seq<Comment>, c: Comment, id: PostId)
    ensures RowsOn(comments + [c], id) == RowsOn(comments, id) + (if c.post == id then [c] else [])
  {
    var tail := if c.post == id then [c] else [];
    if comments == [] {
      assert comments + [c] == [c];
      assert [c][1..] == [];
    } else {
      var head := comments[0];
      var front := if head.post == id then [head] else [];
      var whole := comments + [c];
      assert whole[0] == head && whole[1..] == comments[1..] + [c];
      RowsOnAppend(comments[1..], c, id);
      assert RowsOn(whole, id) == front + RowsOn(comments[1..] + [c], id);
      assert RowsOn(comments, id) == front + RowsOn(comments[1..], id);
      assert front + (RowsOn(comments[1..], id) + tail) == (front + RowsOn(comments[1..], id)) + tail;
    }
  }

  /**
   * A post's comments are its rows of the comment table read back in
   * reverse table order, each row as often as it is stored.
   */
  lemma {:induction false} CommentsOnIsNewestFirst(comments: seq<Comment>, id: PostId)
    ensures CommentsOn(comments, id) == Reversed(RowsOn(comments, id))
  {
    if comments != [] {
      var last := comments[|comments| - 1];
      var earlier := comments[..|comments| - 1];
      assert comments == earlier + [last];
      CommentsOnIsNewestFirst(earlier, id);
      RowsOnAppend(earlier, last, id);
      var tail := if last.post == id then [last] else [];
      ReversedAppend(RowsOn(earlier, id), tail);
      assert Reversed(tail) == tail;
    }
  }

  /** A comment just added is the first one its post shows. */
  lemma NewCommentFirst(comments: seq<Comment>, c: Comment)
    ensures CommentsOn(comments + [c], c.post) == [c] + CommentsOn(comments, c.post)
  {
    assert (comments + [c])[..|comments|] == comments;
  }

  /** The comment table without the comments on post `id`, in table order. */
  function DropCommentsOn(comments: seq<Comment>, id: PostId): (r: seq<Comment>)
    ensures forall c :: c in r <==> c in comments && c.post != id
    ensures forall c :: multiset(r)[c] == if c.post != id then multiset(comments)[c] else 0
  {
    if comments == [] then []
    else
      var rest := DropCommentsOn(comments[1..], id);
      assert comments == [comments[0]] + comments[1..];
      (if comments[0].post != id then [comments[0]] else []) + rest
  }

  lemma {:induction false} DropKeepsOtherRows(comments: seq<Comment>, id: PostId, other: PostId)
    requires other != id
    ensures RowsOn(DropCommentsOn(comments, id), other) == RowsOn(comments, other)
  {
    if comments != [] {
      DropKeepsOtherRows(comments[1..], id, other);
      var head := comments[0];
      var rest := DropCommentsOn(comments[1..], id);
      var front := if head.post == other then [head] else [];
      assert RowsOn(comments, other) == front + RowsOn(comments[1..], other);
      if head.post != id {
        var kept := [head] + rest;
        assert DropCommentsOn(comments, id) == kept;
        assert kept[0] == head && kept[1..] == rest;
        assert RowsOn(kept, other) == front + RowsOn(rest, other);
      } else {
        assert DropCommentsOn(comments, id) == rest;
        assert front == [];
      }
    }
  }

  /**
   * Deleting the comments of one post leaves every other post's comment
   * list as it was: the same rows, as many times, in the same order.
   */
  lemma DropKeepsOtherComments(comments: seq<Comment>, id: PostId, other: PostId)
    requires other != id
    ensures CommentsOn(DropCommentsOn(comments, id), other) == CommentsOn(comments, other)
  {
    DropKeepsOtherRows(comments, id, other);
    CommentsOnIsNewestFirst(comments, other);
    CommentsOnIsNewestFirst(DropCommentsOn(comments, id), other);
  }
}
