/**
 * The request handlers of the posts application over an explicit store:
 * the read-only listings and the detail page as functions of the store,
 * the handlers that write as methods that change it.
 *
 * The current user of a login-required handler is a parameter (the login
 * redirect is not modelled); an optional viewer stands for a request that
 * may be anonymous. Form validation is abstracted into a `valid` flag and
 * the request method into `isPost`.
 */
module Views {

  import opened Wrappers
  import opened Models
  import opened Listings
  import opened FollowEdges
  import Paginator

  /** The page of a newest-first listing is itself newest first. */
  lemma PageKeepsOrder(posts: map<PostId, Post>, listing: seq<PostId>, page: Option<int>)
    requires AllIn(posts, listing) && NewestFirst(posts, listing)
    ensures AllIn(posts, Paginator.GetPage(listing, page).items)
    ensures NewestFirst(posts, Paginator.GetPage(listing, page).items)
  {
    var p := Paginator.GetPage(listing, page);
    var base := (p.number - 1) * Paginator.PostCnt;
    assert p.items == listing[base..base + |p.items|];
    SliceKeepsOrder(posts, listing, base, base + |p.items|);
  }

  /** The data store: the rows of the tables the handlers read and write. */
  class Store {

    var users: set<UserName>
    var groups: set<Slug>
    var posts: map<PostId, Post>
    /** The id the next created post receives. */
    var nextId: nat
    /** Comment rows, oldest first. */
    var comments: seq<Comment>
    /** Follow rows, oldest first. */
    var follows: seq<Follow>

    /**
     * Every post id is below nextId and its author is a user; every comment
     * is attached to a stored post; the follow table has no self-follow and
     * no duplicate edge.
     */
    ghost predicate Valid()
      reads this
    {
      && (forall id :: id in posts ==> id < nextId && posts[id].author in users)
      && (forall id :: id in posts && posts[id].group.Some? ==> posts[id].group.value in groups)
      && (forall c :: c in comments ==> c.post in posts)
      && NoSelfFollow(follows)
      && NoDuplicateEdges(follows)
    }

    /**
     * What the form's group field accepts: no group, or a stored one. A
     * form that names any other group does not validate.
     */
    predicate GroupChoice(form: PostForm)
      reads this
    {
      form.group.Some? ==> form.group.value in groups
    }

    /** A store with the given users and groups and nothing posted yet. */
    constructor (users: set<UserName>, groups: set<Slug>)
      ensures Valid()
      ensures this.users == users && this.groups == groups
      ensures posts == map[] && nextId == 0 && comments == [] && follows == []
    {
      this.users := users;
      this.groups := groups;
      posts := map[];
      nextId := 0;
      comments := [];
      follows := [];
    }

    /** index: every post, newest first, one page of it. */
    function Index(page: Option<int>): (r: Response)
      reads this
      ensures r.Render? && r.view.IndexView?
      ensures AllIn(posts, r.view.page.items) && NewestFirst(posts, r.view.page.items)
      ensures |r.view.page.items| <= Paginator.PostCnt
      ensures 1 <= r.view.page.number <= r.view.page.numPages
    {
      var listing := Listing(posts, nextId, AllPosts);
      PageKeepsOrder(posts, listing, page);
      Render(IndexView(Paginator.GetPage(listing, page)))
    }

    /** group_posts: not found for an unknown slug, else the group's posts, newest first. */
    function GroupPosts(slug: Slug, page: Option<int>): (r: Response)
      reads this
      ensures r.NotFound? <==> slug !in groups
      ensures r.NotFound? || (r.Render? && r.view.GroupView? && r.view.slug == slug)
      ensures r.Render? ==> forall id :: id in r.view.page.items ==> id in posts && posts[id].group == Some(slug)
      ensures r.Render? ==> AllIn(posts, r.view.page.items) && NewestFirst(posts, r.view.page.items)
      ensures r.Render? ==> |r.view.page.items| <= Paginator.PostCnt
    {
      if slug !in groups then NotFound
      else
        var listing := Listing(posts, nextId, InGroup(slug));
        PageKeepsOrder(posts, listing, page);
        Render(GroupView(slug, Paginator.GetPage(listing, page)))
    }

    /**
     * profile: not found for an unknown username, else that author's posts,
     * newest first, and whether the viewer, when signed in, follows them.
     */
    function Profile(viewer: Option<UserName>, username: UserName, page: Option<int>): (r: Response)
      reads this
      ensures r.NotFound? <==> username !in users
      ensures r.NotFound? || (r.Render? && r.view.ProfileView? && r.view.author == username)
      ensures r.Render? ==> (r.view.following <==> viewer.Some? && Follow(viewer.value, username) in follows)
      ensures r.Render? ==> forall id :: id in r.view.page.items ==> id in posts && posts[id].author == username
      ensures r.Render? ==> AllIn(posts, r.view.page.items) && NewestFirst(posts, r.view.page.items)
      ensures r.Render? ==> |r.view.page.items| <= Paginator.PostCnt
    {
      if username !in users then NotFound
      else
        var listing := Listing(posts, nextId, ByAuthor(username));
        PageKeepsOrder(posts, listing, page);
        var following := viewer.Some? && Follow(viewer.value, username) in follows;
        Render(ProfileView(username, Paginator.GetPage(listing, page), following))
    }

    /** post_detail: not found for an unknown id, else the post and its comments, newest first. */
    function PostDetail(id: PostId): (r: Response)
      reads this
      ensures r.NotFound? <==> id !in posts
      ensures r.NotFound? || (r.Render? && r.view.DetailView? && r.view.postId == id)
      ensures r.Render? ==> r.view.post == posts[id]
      ensures r.Render? ==> forall c :: c in r.view.comments <==> c in comments && c.post == id
      ensures r.Render? ==> r.view.comments == CommentsOn(comments, id)
    {
      if id !in posts then NotFound
      else Render(DetailView(id, posts[id], CommentsOn(comments, id)))
    }

    /**
     * post_create: a valid submission stores one new post by the current
     * user, stamped `now`, and redirects to that user's profile; otherwise
     * the form is shown again and nothing is stored.
     */
    method PostCreate(user: UserName, isPost: bool, valid: bool, form: PostForm, now: int) returns (r: Response)
      requires Valid()
      requires valid ==> GroupChoice(form)
      modifies this
      ensures Valid()
      ensures users == old(users) && groups == old(groups)
      ensures comments == old(comments) && follows == old(follows)
      ensures user !in users ==> r == NotFound && posts == old(posts) && nextId == old(nextId)
      ensures user in users && isPost && valid ==>
        && r == Redirect(ProfileOf(user))
        && old(nextId) !in old(posts)
        && posts == old(posts)[old(nextId) := Post(user, form.text, form.group, now)]
        && |posts| == |old(posts)| + 1
        && nextId == old(nextId) + 1
      ensures user in users && !(isPost && valid) ==>
        r == Render(PostFormView(false)) && posts == old(posts) && nextId == old(nextId)
    {
      if user !in users {
        return NotFound;
      }
      if isPost && valid {
        posts := posts[nextId := Post(user, form.text, form.group, now)];
        nextId := nextId + 1;
        return Redirect(ProfileOf(user));
      }
      return Render(PostFormView(false));
    }

    /**
     * post_edit: only the author may change a post. Anyone else is sent to
     * the detail page with nothing changed; the author's valid submission
     * replaces text and group, keeps author and date, and touches no other
     * post; the author's other requests show the form.
     */
    method PostEdit(user: UserName, id: PostId, isPost: bool, valid: bool, form: PostForm) returns (r: Response)
      requires Valid()
      requires valid ==> GroupChoice(form)
      modifies this
      ensures Valid()
      ensures users == old(users) && groups == old(groups) && nextId == old(nextId)
      ensures comments == old(comments) && follows == old(follows)
      ensures posts.Keys == old(posts).Keys
      ensures forall k :: k in posts && k != id ==> posts[k] == old(posts)[k]
      ensures user !in users || id !in posts ==> r == NotFound && posts == old(posts)
      ensures user in users && id in posts && user != old(posts)[id].author ==>
        r == Redirect(PostDetailOf(id)) && posts == old(posts)
      ensures user in users && id in posts && user == old(posts)[id].author && isPost && valid ==>
        && r == Redirect(PostDetailOf(id))
        && posts[id] == Post(old(posts)[id].author, form.text, form.group, old(posts)[id].pubDate)
      ensures user in users && id in posts && user == old(posts)[id].author && !(isPost && valid) ==>
        r == Render(PostFormView(true)) && posts == old(posts)
    {
      if user !in users || id !in posts {
        return NotFound;
      }
      var post := posts[id];
      if user != post.author {
        return Redirect(PostDetailOf(id));
      }
      if isPost && valid {
        posts := posts[id := Post(user, form.text, form.group, post.pubDate)];
        return Redirect(PostDetailOf(id));
      }
      return Render(PostFormView(true));
    }

    /**
     * post_delete: the author's request deletes the post (and the comments
     * attached to it); anyone else's changes nothing. Both redirect to the
     * author's profile.
     */
    method PostDelete(user: UserName, id: PostId) returns (r: Response)
      requires Valid()
      modifies this
      ensures Valid()
      ensures users == old(users) && groups == old(groups) && nextId == old(nextId)
      ensures follows == old(follows)
      ensures id !in old(posts) ==> r == NotFound && posts == old(posts) && comments == old(comments)
      ensures id in old(posts) ==> r == Redirect(ProfileOf(old(posts)[id].author))
      ensures id in old(posts) && user == old(posts)[id].author ==>
        posts == old(posts) - {id} && comments == DropCommentsOn(old(comments), id)
      ensures id in old(posts) && user != old(posts)[id].author ==>
        posts == old(posts) && comments == old(comments)
    {
      if id !in posts {
        return NotFound;
      }
      var author := posts[id].author;
      if user == author {
        posts := posts - {id};
        comments := DropCommentsOn(comments, id);
      }
      return Redirect(ProfileOf(author));
    }

    /**
     * add_comment: on a stored post, a valid form appends one comment by the
     * current user; an invalid one adds nothing. Both redirect to the post.
     */
    method AddComment(user: UserName, id: PostId, valid: bool, text: string) returns (r: Response)
      requires Valid()
      modifies this
      ensures Valid()
      ensures users == old(users) && groups == old(groups) && nextId == old(nextId)
      ensures posts == old(posts) && follows == old(follows)
      ensures id !in posts ==> r == NotFound && comments == old(comments)
      ensures id in posts ==> r == Redirect(PostDetailOf(id))
      ensures id in posts && valid ==> comments == old(comments) + [Comment(id, user, text)]
      ensures !valid ==> comments == old(comments)
    {
      if id !in posts {
        return NotFound;
      }
      if valid {
        comments := comments + [Comment(id, user, text)];
      }
      return Redirect(PostDetailOf(id));
    }

    /**
     * follow_index: the posts of every author the user follows, gathered by
     * walking the user's rows of the follow table, then one page of them.
     */
    method FollowIndex(user: UserName, page: Option<int>) returns (r: Response, ghost feed: seq<PostId>)
      requires Valid()
      ensures Distinct(feed) && AllIn(posts, feed)
      ensures forall id :: id in feed <==> id in posts && Follow(user, posts[id].author) in follows
      ensures r.Render? && r.view.FeedView?
      ensures forall id :: id in r.view.page.items ==> id in posts && Follow(user, posts[id].author) in follows
      ensures |r.view.page.items| <= Paginator.PostCnt
      ensures 1 <= r.view.page.number <= r.view.page.numPages
      ensures r == Render(FeedView(Paginator.GetPage(feed, page)))
    {
      var gathered: seq<PostId> := [];
      var i := 0;
      while i < |follows|
        invariant 0 <= i <= |follows|
        invariant Distinct(gathered) && AllIn(posts, gathered)
        invariant forall id :: id in gathered <==> id in posts && Follow(user, posts[id].author) in follows[..i]
      {
        var row := follows[i];
        assert follows[..i + 1] == follows[..i] + [row];
        if row.user == user {
          var ids := IdsBelow(posts, nextId);
          assert Distinct(ids);
          var block := Select(posts, ids, ByAuthor(row.author));
          forall x | x in gathered ensures x !in block {
            assert Follow(user, posts[x].author) in follows[..i];
            if posts[x].author == row.author {
              assert false;
            }
          }
          DistinctAppend(gathered, block);
          gathered := gathered + block;
        }
        i := i + 1;
      }
      assert follows[..i] == follows;
      feed := gathered;
      var p := Paginator.GetPage(gathered, page);
      forall id | id in p.items ensures id in gathered {
        var k :| 0 <= k < |p.items| && p.items[k] == id;
        assert gathered[(p.number - 1) * Paginator.PostCnt + k] == id;
      }
      r := Render(FeedView(p));
    }

    /**
     * profile_follow: add the edge (user, author) unless it is already there
     * or the user is the author; an unknown username fails the lookup.
     */
    method ProfileFollow(user: UserName, username: UserName) returns (r: Response)
      requires Valid()
      modifies this
      ensures Valid()
      ensures users == old(users) && groups == old(groups) && nextId == old(nextId)
      ensures posts == old(posts) && comments == old(comments)
      ensures username !in users ==> r == LookupError && follows == old(follows)
      ensures username in users ==>
        r == Redirect(ProfileOf(username)) && follows == AfterFollow(old(follows), user, username)
    {
      if username !in users {
        return LookupError;
      }
      FollowKeepsTable(follows, user, username);
      if username != user && Follow(user, username) !in follows {
        follows := follows + [Follow(user, username)];
      }
      return Redirect(ProfileOf(username));
    }

    /**
     * profile_unfollow: remove the one row holding (user, author); an
     * unknown username or a missing edge fails the lookup and changes nothing.
     */
    method ProfileUnfollow(user: UserName, username: UserName) returns (r: Response)
      requires Valid()
      modifies this
      ensures Valid()
      ensures users == old(users) && groups == old(groups) && nextId == old(nextId)
      ensures posts == old(posts) && comments == old(comments)
      ensures username !in users || Follow(user, username) !in old(follows) ==>
        r == LookupError && follows == old(follows)
      ensures username in users && Follow(user, username) in old(follows) ==>
        && r == Redirect(ProfileOf(username))
        && follows == Without(old(follows), Follow(user, username))
        && multiset(follows) == multiset(old(follows)) - multiset{Follow(user, username)}
    {
      if username !in users {
        return LookupError;
      }
      var edge := Follow(user, username);
      if edge !in follows {
        return LookupError;
      }
      WithoutRemovesOneRow(follows, edge);
      UnfollowKeepsTable(follows, edge);
      follows := Without(follows, edge);
      return Redirect(ProfileOf(username));
    }
  }

  /** Paging hides nothing: every stored post is on some page of the index. */
  lemma IndexListsEveryPost(s: Store, id: PostId)
    requires s.Valid() && id in s.posts
    ensures exists k :: id in s.Index(Some(k)).view.page.items
  {
    var all := Listing(s.posts, s.nextId, AllPosts);
    var i :| 0 <= i < |all| && all[i] == id;
    Paginator.ItemOnItsPage(all, i);
    var k := i / Paginator.PostCnt + 1;
    var p := Paginator.GetPage(all, Some(k));
    assert p.items[i % Paginator.PostCnt] == id;
    assert s.Index(Some(k)) == Render(IndexView(p));
  }

  /** Every post of an author is on some page of that author's profile. */
  lemma ProfileListsEveryPost(s: Store, viewer: Option<UserName>, id: PostId)
    requires s.Valid() && id in s.posts
    ensures exists k :: id in s.Profile(viewer, s.posts[id].author, Some(k)).view.page.items
  {
    var author := s.posts[id].author;
    var mine := Listing(s.posts, s.nextId, ByAuthor(author));
    var i :| 0 <= i < |mine| && mine[i] == id;
    Paginator.ItemOnItsPage(mine, i);
    var k := i / Paginator.PostCnt + 1;
    var p := Paginator.GetPage(mine, Some(k));
    assert p.items[i % Paginator.PostCnt] == id;
    var following := viewer.Some? && Follow(viewer.value, author) in s.follows;
    assert s.Profile(viewer, author, Some(k)) == Render(ProfileView(author, p, following));
  }

  /** Every post filed under a group is on some page of that group's listing. */
  lemma GroupListsEveryPost(s: Store, id: PostId)
    requires s.Valid() && id in s.posts && s.posts[id].group.Some?
    ensures exists k :: id in s.GroupPosts(s.posts[id].group.value, Some(k)).view.page.items
  {
    var slug := s.posts[id].group.value;
    var filed := Listing(s.posts, s.nextId, InGroup(slug));
    var i :| 0 <= i < |filed| && filed[i] == id;
    Paginator.ItemOnItsPage(filed, i);
    var k := i / Paginator.PostCnt + 1;
    var p := Paginator.GetPage(filed, Some(k));
    assert p.items[i % Paginator.PostCnt] == id;
    assert s.GroupPosts(slug, Some(k)) == Render(GroupView(slug, p));
  }
}
