/** Feed filtering and paging: composables/useBlogPagination.ts,
    composables/useLists.ts and composables/useBlogPosts.ts. The 1.5-second
    `setTimeout` around a page advance is collapsed into the sequence of
    states the pager passes through. */
module Paging {

  const PageSize: nat := 5

  /** The reactive `page` and `isScrolling` refs. */
  datatype Pager = Pager(page: nat, isScrolling: bool)

  const InitialPager := Pager(1, false)

  /** `items.slice(0, page * pageSize)`. */
  function Visible<T>(items: seq<T>, page: nat): (r: seq<T>)
    ensures |r| == if page * PageSize < |items| then page * PageSize else |items|
    ensures r == items[..|r|]
  {
    if page * PageSize < |items| then items[..page * PageSize] else items
  }

  /** The load-more handler shared by both composables: when more items exist
      than are shown, `isScrolling` goes up, then the page advances by one
      and `isScrolling` comes down. The result lists the states the pager
      passes through after `p`; it is empty when nothing happens. */
  function LoadMore<T>(p: Pager, items: seq<T>): (steps: seq<Pager>)
    ensures |steps| == 0 || |steps| == 2
    ensures |steps| == 2 <==> Visible(items, p.page) != items
    ensures |steps| == 2 ==>
      steps[0] == Pager(p.page, true) && steps[1] == Pager(p.page + 1, false)
    ensures |steps| == 2 ==> |Visible(items, p.page)| < |Visible(items, p.page + 1)|
  {
    if p.page * PageSize < |items| then [p.(isScrolling := true), Pager(p.page + 1, false)]
    else []
  }

  /** The pager after `n` load-more calls that each ran to completion. */
  function AfterLoads<T>(p: Pager, items: seq<T>, n: nat): Pager
    decreases n
  {
    if n == 0 then p
    else
      var steps := LoadMore(p, items);
      AfterLoads(if |steps| == 0 then p else steps[|steps| - 1], items, n - 1)
  }

  /** Enough load-more calls show every item: from page p, any n with
      (p + n) * 5 >= |items| suffices. */
  lemma {:induction false} LoadsRevealAll<T>(p: Pager, items: seq<T>, n: nat)
    requires p.page * PageSize + n * PageSize >= |items|
    ensures Visible(items, AfterLoads(p, items, n).page) == items
    decreases n
  {
    if n == 0 {
    } else {
      var steps := LoadMore(p, items);
      if |steps| == 0 {
        LoadsRevealAllIdle(p, items, n - 1);
      } else {
        LoadsRevealAll(steps[1], items, n - 1);
      }
    }
  }

  /** Once everything is shown, further load-more calls change nothing. */
  lemma {:induction false} LoadsRevealAllIdle<T>(p: Pager, items: seq<T>, n: nat)
    requires Visible(items, p.page) == items
    ensures AfterLoads(p, items, n) == p
    decreases n
  {
    if n > 0 {
      LoadsRevealAllIdle(p, items, n - 1);
    }
  }
}

/** composables/useBlogPagination.ts */
module BlogPagination {
  import opened Base
  import opened Records
  import Paging

  /** `blog.title.toLowerCase().includes(searchQuery.toLowerCase()) &&
      (selectedCategory === '' || blog.tags.includes(selectedCategory))`. */
  predicate MatchesSearch(b: Post, query: string, category: string) {
    Contains(Lower(b.title), Lower(query)) && (category == "" || category in b.tags)
  }

  /** `blog.visibility !== 'private'`. */
  predicate NotPrivate(b: Post) {
    b.visibility != Some("private")
  }

  predicate Shown(b: Post, query: string, category: string) {
    MatchesSearch(b, query, category) && NotPrivate(b)
  }

  /** `filteredBlogs`: the search and category filter, then the visibility
      filter. */
  function FilteredBlogs(blogs: seq<Post>, query: string, category: string): (r: seq<Post>)
    ensures |r| <= |blogs|
    ensures forall i :: 0 <= i < |r| ==>
      r[i] in blogs && r[i].visibility != Some("private") &&
      Contains(Lower(r[i].title), Lower(query)) &&
      (category == "" || category in r[i].tags)
    ensures forall i :: 0 <= i < |blogs| && Shown(blogs[i], query, category) ==> blogs[i] in r
  {
    Filter(Filter(blogs, (b: Post) => MatchesSearch(b, query, category)), NotPrivate)
  }

  /** The two filters in a row are a single order-preserving filter on all
      three conditions. */
  lemma FilteredBlogsOnePass(blogs: seq<Post>, query: string, category: string)
    ensures FilteredBlogs(blogs, query, category)
         == Filter(blogs, (b: Post) => Shown(b, query, category))
  {
    FilterTwice(blogs, (b: Post) => MatchesSearch(b, query, category), NotPrivate,
                (b: Post) => Shown(b, query, category));
  }

  /** Filtering respects the order of `blogs`: it distributes over
      concatenation. */
  lemma FilteredBlogsConcat(a: seq<Post>, b: seq<Post>, query: string, category: string)
    ensures FilteredBlogs(a + b, query, category)
         == FilteredBlogs(a, query, category) + FilteredBlogs(b, query, category)
  {
    FilteredBlogsOnePass(a + b, query, category);
    FilteredBlogsOnePass(a, query, category);
    FilteredBlogsOnePass(b, query, category);
    FilterConcat(a, b, (p: Post) => Shown(p, query, category));
  }

  /** With an empty search and no category, only private posts are hidden. */
  lemma EmptySearchShowsAllPublic(blogs: seq<Post>)
    ensures FilteredBlogs(blogs, "", "") == Filter(blogs, NotPrivate)
  {
    var m := (b: Post) => MatchesSearch(b, "", "");
    forall i | 0 <= i < |blogs|
      ensures m(blogs[i])
    {
      ContainsEmpty(Lower(blogs[i].title));
    }
    FilterKeepsAll(blogs, m);
  }

  /** `paginatedBlogs`. */
  function PaginatedBlogs(blogs: seq<Post>, query: string, category: string, page: nat): (r: seq<Post>)
    ensures var f := FilteredBlogs(blogs, query, category);
            |r| == (if page * Paging.PageSize < |f| then page * Paging.PageSize else |f|) &&
            r == f[..|r|]
  {
    Paging.Visible(FilteredBlogs(blogs, query, category), page)
  }

  /** The first view shows at most five posts. */
  lemma FirstViewAtMostFive(blogs: seq<Post>, query: string, category: string)
    ensures |PaginatedBlogs(blogs, query, category, Paging.InitialPager.page)| <= 5
  {
  }

  /** `loadMoreBlogs()`. */
  function LoadMoreBlogs(p: Paging.Pager, blogs: seq<Post>, query: string, category: string)
    : (steps: seq<Paging.Pager>)
    ensures var f := FilteredBlogs(blogs, query, category);
            (|steps| > 0 <==> p.page * Paging.PageSize < |f|) &&
            (|steps| > 0 ==> steps[|steps| - 1] == Paging.Pager(p.page + 1, false) &&
                             steps[0].isScrolling && steps[0].page == p.page)
  {
    Paging.LoadMore(p, FilteredBlogs(blogs, query, category))
  }
}

/** composables/useLists.ts */
module Lists {
  import opened Base
  import opened Records
  import Paging

  /** `loadMoreListItems()` over the saved posts. */
  function LoadMoreListItems<T>(p: Paging.Pager, savedPosts: seq<T>): (steps: seq<Paging.Pager>)
    ensures p.page * Paging.PageSize >= |savedPosts| ==> steps == []
    ensures p.page * Paging.PageSize < |savedPosts| ==>
      steps == [Paging.Pager(p.page, true), Paging.Pager(p.page + 1, false)]
  {
    Paging.LoadMore(p, savedPosts)
  }

  /** `getListsBySlug(slug)`: the query either throws `new Error(message)`
      or sets `list_db` to the first row with that slug, or null. */
  function GetListsBySlug(table: seq<ListRow>, slug: string, failure: Option<string>)
    : (r: Result<Option<ListRow>>)
    ensures failure.Some? <==> r.Raised?
    ensures failure.Some? ==> r.message == failure.value
    ensures r.Ok? && r.value.Some? ==> r.value.value in table && r.value.value.slug == Some(slug)
    ensures r == Ok(None) <==>
      failure.None? && forall i :: 0 <= i < |table| ==> table[i].slug != Some(slug)
    ensures r.Ok? && r.value.Some? ==>
      exists i :: 0 <= i < |table| && table[i] == r.value.value &&
                  forall j :: 0 <= j < i ==> table[j].slug != Some(slug)
  {
    if failure.Some? then Raised(failure.value)
    else
      var rows := Filter(table, (l: ListRow) => l.slug == Some(slug));
      FirstOfFilter(table, (l: ListRow) => l.slug == Some(slug));
      Ok(if |rows| > 0 then Some(rows[0]) else None)
  }

  /** The head of a filter is the first matching element. */
  lemma {:induction false} FirstOfFilter<T>(s: seq<T>, p: T -> bool)
    ensures |Filter(s, p)| > 0 ==>
      exists i :: IsFirst(s, p, i) && s[i] == Filter(s, p)[0]
    ensures |Filter(s, p)| == 0 ==> forall i :: 0 <= i < |s| ==> !p(s[i])
  {
    if |s| > 0 {
      FirstOfFilter(s[1..], p);
      if !p(s[0]) && |Filter(s[1..], p)| > 0 {
        var i :| IsFirst(s[1..], p, i) && s[1..][i] == Filter(s[1..], p)[0];
        assert IsFirst(s, p, i + 1);
      } else if p(s[0]) {
        assert IsFirst(s, p, 0);
      }
    }
  }
}

/** composables/useBlogPosts.ts */
module BlogPosts {
  import opened Base
  import opened Records
  import Authors

  datatype State = State(blogDb: seq<Post>, users: seq<User>, isLoading: bool, error: Option<string>)

  const Initial := State([], [], true, None)

  /** What `Promise.all([getRecentPost(), getAllUser()])` settles to: a
      rejection, or the two lists, each possibly null. */
  datatype FetchReply = Rejected(error: string) | Fetched(posts: Option<seq<Post>>, users: Option<seq<User>>)

  /** `fetchPosts()`: null results become empty lists, a rejection is kept
      in `error` (and nothing else changes), and loading always ends. */
  function FetchPosts(s: State, reply: FetchReply): (r: State)
    ensures !r.isLoading
    ensures reply.Rejected? ==> r.error == Some(reply.error) && r.blogDb == s.blogDb && r.users == s.users
    ensures reply.Fetched? ==> r.error == s.error
    ensures reply.Fetched? && reply.posts.None? ==> r.blogDb == []
    ensures reply.Fetched? && reply.posts.Some? ==> r.blogDb == reply.posts.value
    ensures reply.Fetched? && reply.users.None? ==> r.users == []
    ensures reply.Fetched? && reply.users.Some? ==> r.users == reply.users.value
  {
    var loading := s.(isLoading := true);
    match reply
    case Rejected(e) => loading.(error := Some(e), isLoading := false)
    case Fetched(ps, us) => loading.(blogDb := ps.GetOr([]), users := us.GetOr([]), isLoading := false)
  }

  /** `findPostAuthor(authorId)` over the fetched users. */
  function FindPostAuthor(s: State, authorId: string): (r: Option<User>)
    ensures Authors.IsAuthorLookup(s.users, authorId, r)
  {
    Authors.UserById(s.users, authorId)
  }

  predicate ByAuthorWithStatus(p: Post, authorId: string, status: string) {
    p.authorId == authorId && p.status == status
  }

  /** `filterPostsByStatus(authorId, status)`. */
  function FilterPostsByStatus(s: State, authorId: string, status: string): (r: seq<Post>)
    ensures |r| <= |s.blogDb|
    ensures forall i :: 0 <= i < |r| ==> r[i] in s.blogDb && r[i].authorId == authorId && r[i].status == status
    ensures forall i :: 0 <= i < |s.blogDb| && ByAuthorWithStatus(s.blogDb[i], authorId, status) ==>
      s.blogDb[i] in r
    ensures r == Filter(s.blogDb, (p: Post) => ByAuthorWithStatus(p, authorId, status))
  {
    Filter(s.blogDb, (p: Post) => ByAuthorWithStatus(p, authorId, status))
  }

  /** The selection keeps the fetched order: selecting from two halves of
      the fetched posts gives the two selections one after the other. */
  lemma FilterPostsByStatusConcat(s: State, a: seq<Post>, b: seq<Post>, authorId: string, status: string)
    requires s.blogDb == a + b
    ensures FilterPostsByStatus(s, authorId, status)
         == FilterPostsByStatus(s.(blogDb := a), authorId, status) + FilterPostsByStatus(s.(blogDb := b), authorId, status)
  {
    FilterConcat(a, b, (p: Post) => ByAuthorWithStatus(p, authorId, status));
  }

  /** What a fetch feeds the two selectors: the author lookup runs over the
      fetched users and the status selection over the fetched posts; a
      rejected fetch leaves both as they were. */
  lemma FetchFeedsSelectors(s: State, reply: FetchReply, authorId: string, status: string)
    ensures reply.Fetched? && reply.users.Some? ==>
      FindPostAuthor(FetchPosts(s, reply), authorId) == Authors.UserById(reply.users.value, authorId)
    ensures reply.Fetched? && reply.users.None? ==> FindPostAuthor(FetchPosts(s, reply), authorId).None?
    ensures reply.Fetched? && reply.posts.Some? ==>
      FilterPostsByStatus(FetchPosts(s, reply), authorId, status)
      == Filter(reply.posts.value, (p: Post) => ByAuthorWithStatus(p, authorId, status))
    ensures reply.Rejected? ==>
      FindPostAuthor(FetchPosts(s, reply), authorId) == FindPostAuthor(s, authorId) &&
      FilterPostsByStatus(FetchPosts(s, reply), authorId, status) == FilterPostsByStatus(s, authorId, status)
  {
    var r := FetchPosts(s, reply);
    if reply.Fetched? && reply.users.Some? {
      Authors.LookupUnique(r.users, authorId, FindPostAuthor(r, authorId), Authors.UserById(reply.users.value, authorId));
    }
    if reply.Rejected? {
      Authors.LookupUnique(r.users, authorId, FindPostAuthor(r, authorId), FindPostAuthor(s, authorId));
    }
  }

  /** An author's "draft" and "posted" selections never share a post. */
  lemma StatusesPartition(s: State, authorId: string)
    ensures forall p :: p in FilterPostsByStatus(s, authorId, "draft") ==>
      p !in FilterPostsByStatus(s, authorId, "posted")
  {
  }
}
