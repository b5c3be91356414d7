/** server/api/sitemap/urls.ts: one sitemap entry per blog post, pointing at
    the post under its author's username. The configured base URL, the user
    listing and the posts query are inputs. */
module Sitemap {
  import opened Base
  import opened Records
  import Authors

  const DefaultBaseUrl := "http://localhost:3000"

  /** `baseURL || 'http://localhost:3000'`. */
  function BaseUrl(configured: Option<string>): (r: string)
    ensures Truthy(configured) ==> r == configured.value
    ensures !Truthy(configured) ==> r == DefaultBaseUrl
    ensures r != ""
  {
    if Truthy(configured) then configured.value else DefaultBaseUrl
  }

  datatype Entry = Entry(loc: string, changefreq: string, priority: real, lastmod: Option<string>)

  /** What `getAllPost()` yields: `[]` when the query fails, otherwise the
      data as returned, which may be `null`. */
  datatype PostsReply = PostsFailed | PostsData(data: Option<seq<Post>>)

  datatype SitemapReply = Entries(entries: seq<Entry>) | ServerError(statusCode: int, statusMessage: string)

  /** The address of a post: `<base>/post/@<username>/<id>`, where an
      unknown author prints as "undefined". */
  function PostLoc(base: string, users: seq<User>, post: Post): string {
    var author := Authors.UserById(users, post.authorId);
    base + "/post/@" + JsText(if author.Some? then author.value.username else None) + "/" + post.id
  }

  /** `post.updated_at || post.publish_date`. */
  function LastMod(post: Post): (r: Option<string>)
    ensures Truthy(post.updatedAt) ==> r == post.updatedAt
    ensures !Truthy(post.updatedAt) ==> r == post.publishDate
  {
    if Truthy(post.updatedAt) then post.updatedAt else post.publishDate
  }

  function EntryFor(base: string, users: seq<User>, post: Post): Entry {
    Entry(PostLoc(base, users, post), "daily", 1.0, LastMod(post))
  }

  /** The handler. `users` is `users.users` of the listing, `None` when the
      listing has no data: reading it throws, but only once there is a post
      to map. Any throw becomes a 500. */
  function SitemapUrls(configured: Option<string>, users: Option<seq<User>>, posts: PostsReply): (r: SitemapReply)
    ensures posts.PostsFailed? ==> r == Entries([])
    ensures posts.PostsData? && posts.data.None? ==> r == ServerError(500, "Internal Server Error")
    ensures posts.PostsData? && posts.data.Some? && |posts.data.value| > 0 && users.None? ==>
      r == ServerError(500, "Internal Server Error")
    ensures posts.PostsData? && posts.data.Some? && (|posts.data.value| == 0 || users.Some?) ==> r.Entries?
    ensures r.Entries? && posts.PostsData? ==>
      posts.data.Some? && |r.entries| == |posts.data.value| &&
      forall i :: 0 <= i < |r.entries| ==>
        r.entries[i] == EntryFor(BaseUrl(configured), users.GetOr([]), posts.data.value[i])
  {
    match posts
    case PostsFailed => Entries([])
    case PostsData(data) =>
      if data.None? then ServerError(500, "Internal Server Error")
      else if |data.value| > 0 && users.None? then ServerError(500, "Internal Server Error")
      else
        var ps := data.value;
        var us := users.GetOr([]);
        Entries(seq(|ps|, i requires 0 <= i < |ps| => EntryFor(BaseUrl(configured), us, ps[i])))
  }

  /** Every entry's address starts with the base URL and ends with its
      post's id. */
  lemma LocShape(base: string, users: seq<User>, post: Post)
    ensures var loc := PostLoc(base, users, post);
            IsPrefix(base + "/post/@", loc) && loc[|loc| - |post.id|..] == post.id
  {
  }

  /** Two posts of the same author get different addresses exactly when
      their ids differ. */
  lemma SameAuthorLocs(base: string, users: seq<User>, p: Post, q: Post)
    requires p.authorId == q.authorId
    ensures PostLoc(base, users, p) == PostLoc(base, users, q) <==> p.id == q.id
  {
    var author := Authors.UserById(users, p.authorId);
    var head := base + "/post/@" + JsText(if author.Some? then author.value.username else None) + "/";
    assert PostLoc(base, users, p) == head + p.id;
    assert PostLoc(base, users, q) == head + q.id;
    if head + p.id == head + q.id {
      assert (head + p.id)[|head|..] == p.id;
      assert (head + q.id)[|head|..] == q.id;
    }
  }

  /** A post whose author is listed is addressed by that author's username. */
  lemma KnownAuthorLoc(base: string, users: seq<User>, post: Post, k: nat)
    requires k < |users| && users[k].id == post.authorId
    requires forall j :: 0 <= j < k ==> users[j].id != post.authorId
    ensures PostLoc(base, users, post) == base + "/post/@" + JsText(users[k].username) + "/" + post.id
  {
    var author := Authors.UserById(users, post.authorId);
    Authors.LookupUnique(users, post.authorId, author, Some(users[k]));
  }
}
