/**
 * The records the views read and write, and what a request handler answers.
 * Users and groups are named by their username and slug; a post is named by
 * its numeric id.
 */
module Models {

  import opened Wrappers
  import Paginator

  type UserName = string
  type Slug = string
  type PostId = nat

  /** A post: its author, its text, its optional group and its creation time. */
  datatype Post = Post(author: UserName, text: string, group: Option<Slug>, pubDate: int)

  /** A comment: the post it is attached to, its author and its text. */
  datatype Comment = Comment(post: PostId, author: UserName, text: string)

  /** A follow edge: `user` receives the posts of `author` in the feed. */
  datatype Follow = Follow(user: UserName, author: UserName)

  /** The fields of a submitted post form (the image field is not modelled). */
  datatype PostForm = PostForm(text: string, group: Option<Slug>)

  /** Where a redirect points. */
  datatype Location = ProfileOf(username: UserName) | PostDetailOf(postId: PostId)

  /** The page a handler renders, with the parts of its context that carry logic. */
  datatype View =
    | IndexView(page: Paginator.Page<PostId>)
    | GroupView(slug: Slug, page: Paginator.Page<PostId>)
    | ProfileView(author: UserName, page: Paginator.Page<PostId>, following: bool)
    | DetailView(postId: PostId, post: Post, comments: seq<Comment>)
    | PostFormView(isEdit: bool)
    | FeedView(page: Paginator.Page<PostId>)

  /**
   * A handler's answer: a rendered page, a redirect, a not-found answer for a
   * failed get_object_or_404, or an uncaught lookup failure for a failed
   * objects.get (the framework turns that into a server error).
   */
  datatype Response = Render(view: View) | Redirect(to: Location) | NotFound | LookupError
}
