/**
 * Client code written against the handlers' contracts alone, following the
 * situations the application's own tests set up.
 */
module Scenarios {

  import opened Wrappers
  import opened Models
  import opened Views
  import Listings
  import Paginator

  /** Following an author adds the edge; unfollowing takes it away again. */
  method FollowAndUnfollow()
  {
    var s := new Store({"user1", "user2"}, {});
    var r := s.ProfileFollow("user1", "user2");
    assert r == Redirect(ProfileOf("user2"));
    assert Follow("user1", "user2") in s.follows;
    r := s.ProfileUnfollow("user1", "user2");
    assert r == Redirect(ProfileOf("user2"));
    assert Follow("user1", "user2") !in s.follows;
    r := s.ProfileUnfollow("user1", "user2");
    assert r == LookupError;
  }

  /** Nobody can follow themselves, and a second follow adds no second row. */
  method NoSelfOrDoubleFollow()
  {
    var s := new Store({"user1", "user2"}, {});
    var r := s.ProfileFollow("user1", "user1");
    assert s.follows == [];
    r := s.ProfileFollow("user1", "user2");
    r := s.ProfileFollow("user1", "user2");
    assert s.follows == [Follow("user1", "user2")];
  }

  /**
   * user1 and user2 follow each other and only user2 has posted: user2's
   * post is in user1's feed and not in user2's own.
   */
  method FeedShowsFollowedAuthors()
  {
    var s := new Store({"user1", "user2"}, {});
    var r := s.PostCreate("user2", true, true, PostForm("text", None), 1);
    assert r == Redirect(ProfileOf("user2"));
    assert 0 in s.posts && s.posts[0].author == "user2";
    r := s.ProfileFollow("user1", "user2");
    r := s.ProfileFollow("user2", "user1");
    ghost var feed1, feed2;
    r, feed1 := s.FollowIndex("user1", None);
    assert 0 in feed1;
    r, feed2 := s.FollowIndex("user2", None);
    assert 0 !in feed2;
  }

  /** Someone else's edit and delete requests leave the post as it was. */
  method OnlyTheAuthorWrites()
  {
    var s := new Store({"HasNoName", "NotAuthor"}, {"test_slug"});
    var r := s.PostCreate("HasNoName", true, true, PostForm("text", None), 1);
    assert s.posts == map[0 := Post("HasNoName", "text", None, 1)];
    r := s.PostEdit("NotAuthor", 0, true, true, PostForm("changed", None));
    assert r == Redirect(PostDetailOf(0));
    r := s.PostDelete("NotAuthor", 0);
    assert r == Redirect(ProfileOf("HasNoName"));
    assert s.posts == map[0 := Post("HasNoName", "text", None, 1)];
    r := s.PostEdit("HasNoName", 0, true, true, PostForm("changed", Some("test_slug")));
    assert s.posts[0] == Post("HasNoName", "changed", Some("test_slug"), 1);
    r := s.PostDelete("HasNoName", 0);
    assert s.posts == map[];
  }

  /** A valid comment is the first one its post shows; an invalid one is dropped. */
  method CommentAppearsFirst()
  {
    var s := new Store({"user"}, {});
    var r := s.PostCreate("user", true, true, PostForm("text", None), 1);
    r := s.AddComment("user", 0, true, "first");
    r := s.AddComment("user", 0, false, "dropped");
    r := s.AddComment("user", 0, true, "second");
    assert r == Redirect(PostDetailOf(0));
    assert s.comments == [Comment(0, "user", "first"), Comment(0, "user", "second")];
    var detail := s.PostDetail(0);
    Listings.NewCommentFirst([Comment(0, "user", "first")], Comment(0, "user", "second"));
    assert detail.view.comments[0] == Comment(0, "user", "second");
    assert Comment(0, "user", "dropped") !in detail.view.comments;
  }

  /** Group and profile pages answer not-found for unknown names. */
  method UnknownNamesAreNotFound()
  {
    var s := new Store({"user"}, {"test_slug"});
    assert s.GroupPosts("unknown", None) == NotFound;
    assert s.GroupPosts("test_slug", None).Render?;
    assert s.Profile(None, "nobody", None) == NotFound;
    assert !s.Profile(None, "user", None).view.following;
  }

  /** A post created after the others leads the first page of the index. */
  method NewestPostLeadsIndex()
  {
    var s := new Store({"user"}, {});
    var r := s.PostCreate("user", true, true, PostForm("older", None), 1);
    var before := s.posts;
    r := s.PostCreate("user", true, true, PostForm("newer", None), 2);
    assert s.posts == before[1 := Post("user", "newer", None, 2)];
    Listings.NewPostLeads(before, 1, Post("user", "newer", None, 2), s.nextId, Listings.AllPosts);
    var listing := Listings.Listing(s.posts, s.nextId, Listings.AllPosts);
    assert listing[0] == 1;
    var first := Paginator.GetPage(listing, None);
    assert |first.items| > 0 by {
      assert |Paginator.PageItems(listing, 1)| > 0;
    }
    assert s.Index(None) == Render(IndexView(first));
    assert first.items[0] == 1;
  }
}
