/** Rows of the hosted service that several components read, restricted to
    the columns the modelled code touches. */
module Records {
  import opened Base

  /** An authentication user: `id` and the `user_metadata` fields read by the
      application (`email`, `username`), each of which may be missing. */
  datatype User = User(id: string, email: Option<string>, username: Option<string>)

  /** A `blog_posts` row. */
  datatype Post = Post(
    id: string,
    title: string,
    tags: seq<string>,
    visibility: Option<string>,
    authorId: string,
    status: string,
    publishDate: Option<string>,
    updatedAt: Option<string>)

  /** A `user_lists` row. */
  datatype ListRow = ListRow(
    id: string,
    userId: string,
    name: string,
    slug: Option<string>,
    description: string,
    status: Option<string>)
}
