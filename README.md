# Yatube posts: a verified model of the view layer

Yatube is a blog platform. Users write posts, file them under groups,
comment on posts and follow other authors. This project models the
business rules of its request handlers in `yatube/posts/views.py`. The ORM
is replaced by an explicit store with these tables:

- `users` (usernames) and `groups` (slugs);
- `posts`: a map from post id to author, text, optional group and `pubDate`;
- `comments`: comment rows in creation order;
- `follows`: follow rows `(user, author)` in creation order.

The model has seven modules:

- `Wrappers`: the `Option` type used for absent request arguments and
  optional fields.
- `Paginator`: the framework paginator with page size `POST_CNT = 10`. It
  computes the page count, resolves the requested page the way `get_page`
  does, and cuts the slice at offset `(k - 1) * 10`.
- `Models`: posts, comments, follow edges, post forms, redirect targets,
  and the rendered views and responses.
- `Listings`: the queries behind the listing pages. It filters by
  group or author and sorts newest first. It also gives the order in which
  a post's comments are read back.
- `FollowEdges`: the follow table as the follow and unfollow handlers
  change it.
- `Views`: a `Store` class holding the tables.
  - The read-only handlers are functions of the store: `index`,
    `group_posts`, `profile` and `post_detail`.
  - The handlers that write are methods that change the store:
    `post_create`, `post_edit`, `post_delete`, `add_comment`,
    `profile_follow` and `profile_unfollow`.
  - `follow_index` is a method whose loop walks the user's follow rows. This
    matches the loop in the source.
- `Scenarios`: client code written against the contracts alone. It follows
  the situations set up by the application's tests.

The store invariant `Store.Valid()` says five things:

- every post id is below the next id to be issued;
- every post's author is a user;
- every post's group, when it has one, is a stored group;
- every comment is attached to a stored post;
- the follow table has no self-follow and no duplicate edge.

Every writing handler keeps this invariant.

Handler inputs:

- A login-required handler takes the current user as a parameter.
- `profile` takes an optional viewer (`None` is an anonymous request).
- Form validation is a `valid` flag. A valid post form names no group or
  a stored one (`Store.GroupChoice`), as the form's group choice field only
  accepts stored groups.
- The request method is an `isPost` flag.
- The creation time of a new post is a `now` parameter.

Responses are `Render(view)`, `Redirect(location)`, `NotFound` and
`LookupError`:

- `NotFound` is a failed `get_object_or_404`.
- `LookupError` is an uncaught `objects.get` failure, which the framework
  answers with a server error.

Behaviour that comes from outside `views.py` is assumed as follows:

- `get_page` is the framework's. A missing or non-integer page gives page
  1. A number past the last page gives the last page. A number below 1
  also gives the last page, not the first.
- Listing ties on `pub_date` are broken by the larger id first. The
  database leaves the order of such ties open.
- A post's comments are read back newest first. The tests read
  `comments.all()[0]` as the latest comment; the comment model's ordering
  is not part of this model.
- Deleting a post also deletes its comments, so every comment stays
  attached to a stored post. The model definitions are not part of this
  model.
- Within `follow_index`, each followed author's posts come in table (id)
  order. No claim is made about the feed's order.

In these places the model follows the code:

- `profile_follow` and `profile_unfollow` look up the author with
  `User.objects.get`, and `profile_unfollow` looks up the edge with
  `Follow.objects.get`. A failed lookup raises and is not mapped to a
  not-found answer. The model answers `LookupError` and changes nothing.
- `follow_index` does not sort the feed by date.

## Model

| member | source | states |
|---|---|---|
| Paginator.NumPages | yatube/posts/views.py:16 | the page count is the ceiling of count / POST_CNT, and one page when there are no items |
| Paginator.PageNumber | yatube/posts/views.py:17-18 | the resolved page is always between 1 and the page count; a valid request is kept; a missing one gives 1; an out-of-range one gives the last page |
| Paginator.PageItems | yatube/posts/views.py:18 | a page holds at most POST_CNT items, exactly POST_CNT before the last page, the remainder on the last, and item i is listing item (k-1)*POST_CNT + i |
| Paginator.GetPage | yatube/posts/views.py:16-18 | the page object carries the page number get_page resolves the request to, within 1..numPages, and exactly that page's items: at most POST_CNT, the listing's at the page offset |
| Paginator.PagesArePrefix | yatube/posts/views.py:16-18 | pages 1..k concatenated are the first k*POST_CNT items of the listing |
| Paginator.AllPagesReproduce | yatube/posts/views.py:15-18 | concatenating all pages in order gives back the whole ordered listing |
| Paginator.ItemOnItsPage | yatube/posts/views.py:16-18 | listing item i is on page i / POST_CNT + 1, at position i mod POST_CNT |
| Paginator.ThirteenItems | yatube/posts/tests/test_views.py:226-232 | 13 items make 2 pages: 10 on page 1, 3 on page 2; page 3 and page 0 resolve to page 2 |
| Listings.IdsBelow | yatube/posts/views.py:15 | lists exactly the stored ids below the bound, strictly increasing |
| Listings.Select | yatube/posts/views.py:32 | keeps exactly the posts that pass the group or author filter, and keeps them distinct |
| Listings.Insert | yatube/posts/views.py:15 | inserting adds exactly one occurrence of the post (multiset) |
| Listings.InsertKeepsOrder | yatube/posts/views.py:15 | inserting a new post into a newest-first sequence keeps it newest first |
| Listings.Sort | yatube/posts/views.py:15 | sorting is a permutation of its input |
| Listings.SortOrders | yatube/posts/views.py:15 | sorting distinct posts orders them by descending pub_date |
| Listings.Listing | yatube/posts/views.py:49 | a listing contains exactly the stored posts passing the filter, newest first (also the queries of lines 15 and 32) |
| Listings.NewestFirstIsDistinct | yatube/posts/views.py:15 | a newest-first listing shows each post once |
| Listings.NewPostLeads | yatube/posts/views.py:15 | a post created last and no older than the others is first in every listing it belongs to |
| Listings.CommentsOn | yatube/posts/views.py:69 | a post's comments are the comment rows attached to it, each row as many times as it is stored |
| Listings.CommentsOnIsNewestFirst | yatube/posts/views.py:69 | a post's comments are its rows of the comment table in reverse table order, newest first |
| Listings.NewCommentFirst | yatube/posts/tests/test_forms.py:94-98 | a newly added comment is the first comment its post shows |
| Listings.DropCommentsOn | yatube/posts/views.py:117 | deleting a post keeps the comment rows on other posts, each as many times as it is stored, and drops the rows on the deleted post |
| Listings.DropKeepsOtherComments | yatube/posts/views.py:117 | after a post's deletion, every other post shows the same comments, as many times and in the same order |
| FollowEdges.Count | yatube/posts/views.py:155-158 | the number of rows for an edge is zero exactly when the edge is absent |
| FollowEdges.CountAtMostOne | yatube/posts/views.py:155-159 | in a table without duplicates every edge is stored at most once |
| FollowEdges.AfterFollow | yatube/posts/views.py:155-159 | after a follow the edge is present iff user differs from author or it was present already; no other edge changes; a self-follow changes nothing |
| FollowEdges.FollowKeepsTable | yatube/posts/views.py:155-159 | following keeps the table free of self-follows and duplicates |
| FollowEdges.FollowTwice | yatube/posts/views.py:155-159 | following the same author twice leaves exactly one row for the pair |
| FollowEdges.Without | yatube/posts/views.py:167-168 | unfollowing keeps exactly the rows other than the edge |
| FollowEdges.WithoutRemovesOneRow | yatube/posts/views.py:167-168 | in a table without duplicates, unfollowing a stored edge removes exactly that one row |
| FollowEdges.WithoutIsIdentity | yatube/posts/views.py:167-168 | removing an edge that is not stored changes nothing |
| FollowEdges.UnfollowKeepsTable | yatube/posts/views.py:167-168 | unfollowing keeps the table free of self-follows and duplicates |
| FollowEdges.FollowThenUnfollow | yatube/posts/tests/test_views.py:164-185 | follow then unfollow leaves no row for the pair and every other edge as it was |
| Views.PageKeepsOrder | yatube/posts/views.py:15-18 | a page of a newest-first listing is newest first |
| Views.Store.Index | yatube/posts/views.py:12-26 | always renders one page of stored posts, newest first, at most POST_CNT of them |
| Views.Store.GroupPosts | yatube/posts/views.py:29-44 | not found iff the slug is unknown; otherwise a page of posts of that group only, newest first |
| Views.Store.Profile | yatube/posts/views.py:47-63 | not found iff the username is unknown; otherwise a page of that author's posts only, newest first; `following` holds iff the viewer is signed in and follows the author |
| Views.Store.PostDetail | yatube/posts/views.py:66-77 | not found iff the post is absent; otherwise the post and its comment list, which is CommentsOn of the table (its rows, newest first) |
| Views.Store.PostCreate | yatube/posts/views.py:80-90 | a valid POST adds exactly one post, authored by the current user, at a fresh id, and redirects to that user's profile; otherwise nothing is stored and the form is rendered |
| Views.Store.PostEdit | yatube/posts/views.py:93-110 | a non-author is redirected to the detail page with the post unchanged; the author's valid POST replaces text and group and keeps author and date; no other post changes |
| Views.Store.PostDelete | yatube/posts/views.py:113-119 | the post is removed only when the requester is its author, otherwise nothing changes; both outcomes redirect to the author's profile |
| Views.Store.AddComment | yatube/posts/views.py:122-131 | a valid form appends exactly one comment with the current user as author on the target post; an invalid one adds nothing; both redirect to the post |
| Views.Store.FollowIndex | yatube/posts/views.py:134-148 | the feed contains each post exactly once, and a post is in it iff its author is followed by the user; the rendered page is a page of that feed, so every post on it is by a followed author and it holds at most POST_CNT posts |
| Views.Store.ProfileFollow | yatube/posts/views.py:151-160 | adds the edge iff the author differs from the user and the edge is absent; nothing else in the store changes; an unknown username fails the lookup |
| Views.Store.ProfileUnfollow | yatube/posts/views.py:163-169 | removes exactly the one row for the edge; a missing edge or unknown username fails the lookup and changes nothing |
| Views.IndexListsEveryPost | yatube/posts/views.py:15-18 | every stored post is on some page of the index |
| Views.ProfileListsEveryPost | yatube/posts/views.py:49-52 | every post of an author is on some page of that author's profile |
| Views.GroupListsEveryPost | yatube/posts/views.py:32-36 | every post filed under a group is on some page of that group's listing |

## Left out

- Template rendering and the display-only context entries are not modelled. These are titles, texts, the group description, the unpaged `posts` entry, the `index` and `follow` flags, and the comment form on the detail page. The `core/templatetags/user_filters.py` filters are left out too; they only wrap widget attributes.
- Authentication and the login redirect with `next=` are left out. This belongs to the framework; the current user is a parameter.
- The ORM, `get_object_or_404` and HTTP status codes are replaced by the explicit store and the `NotFound` / `LookupError` responses.
- Form field validation is a `valid` flag. The internals belong to the framework's forms.
- Image upload and storage paths are left out. They are file-storage work done outside `views.py`; the post form has no image field here.
- The index page cache is left out. It is configured outside `views.py` and is time-based.
- Users and groups are never created or removed by these handlers. They are given when the store is constructed.
- Views.Store.FollowIndex: the feed's order is not stated. The source concatenates per-author query sets without sorting them.
- Views.Store.Index: the contract covers the page as a newest-first page of stored posts. The fact that every post appears is a separate lemma (`Views.IndexListsEveryPost`), and the whole-listing order is shown in `Listings.Listing`.
- Concurrency between requests is not modelled. Each handler runs as one atomic step on the store.
