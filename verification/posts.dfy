/** Slugs: `text.toLowerCase().replace(/\s+/g, "-")`, the form in which post
    titles, tag names and list names are turned into URL segments. */
module Slug {
  import opened Base

  /** Every character is already in lower case. */
  predicate IsLowered(s: string) {
    forall i :: 0 <= i < |s| ==> LowerChar(s[i]) == s[i]
  }

  /** A slug: lower case, every whitespace run replaced by one hyphen. */
  function Slugify(s: string): (r: string)
    ensures |r| <= |s|
    ensures NoSpace(r)
  {
    Hyphenate(Lower(s))
  }

  /** A suffix of a lower-case string is in lower case. */
  lemma LoweredSuffix(s: string, n: nat)
    requires IsLowered(s) && n <= |s|
    ensures IsLowered(s[n..])
  {
    forall i | 0 <= i < |s| - n
      ensures LowerChar(s[n..][i]) == s[n..][i]
    {
      assert s[n..][i] == s[n + i];
    }
  }

  /** Lower-case strings stay so when joined. */
  lemma LoweredConcat(a: string, b: string)
    requires IsLowered(a) && IsLowered(b)
    ensures IsLowered(a + b)
  {
    forall i | 0 <= i < |a + b|
      ensures LowerChar((a + b)[i]) == (a + b)[i]
    {
      if i >= |a| {
        assert (a + b)[i] == b[i - |a|];
      }
    }
  }

  /** Hyphenation keeps a string in lower case: it only drops whitespace,
      inserts hyphens and keeps the other characters. */
  lemma {:induction false} HyphenateKeepsLowered(s: string)
    requires IsLowered(s)
    ensures IsLowered(Hyphenate(s))
    decreases |s|
  {
    if |s| > 0 {
      var rest := if IsSpace(s[0]) then SkipSpaces(s[1..]) else s[1..];
      var head: char := if IsSpace(s[0]) then '-' else s[0];
      assert rest == s[|s| - |rest|..];
      LoweredSuffix(s, |s| - |rest|);
      HyphenateKeepsLowered(rest);
      assert Hyphenate(s) == [head] + Hyphenate(rest);
      assert IsLowered([head]);
      LoweredConcat([head], Hyphenate(rest));
    }
  }

  /** Slugs are in lower case. */
  lemma SlugifyLowered(s: string)
    ensures IsLowered(Slugify(s))
  {
    HyphenateKeepsLowered(Lower(s));
  }

  /** A lower-case string without whitespace is its own slug. */
  lemma SlugifyFixed(s: string)
    requires NoSpace(s) && IsLowered(s)
    ensures Slugify(s) == s
  {
    assert Lower(s) == s;
    HyphenateNoSpace(s);
  }

  /** Slugifying a slug changes nothing. */
  lemma SlugifyIdempotent(s: string)
    ensures Slugify(Slugify(s)) == Slugify(s)
  {
    SlugifyLowered(s);
    SlugifyFixed(Slugify(s));
  }
}

/** composables/usePostManagement.ts: saving a new post and maintaining the
    categories its tags belong to. */
module PostManagement {
  import opened Base
  import opened Records
  import opened Slug
  import BlogPosts

  /** The maximal length of a post slug. */
  const SlugLength := 100

  /** `title.toLowerCase().replace(/\s+/g, '-').slice(0, 100)`. */
  function PostSlug(title: string): (r: string)
    ensures |r| <= SlugLength
    ensures NoSpace(r)
    ensures IsPrefix(r, Slugify(title))
    ensures |Slugify(title)| <= SlugLength ==> r == Slugify(title)
    ensures |Slugify(title)| > SlugLength ==> r == Slugify(title)[..SlugLength]
  {
    Take(Slugify(title), SlugLength)
  }

  /** A post slug is a fixed point of the slug rule. */
  lemma PostSlugIdempotent(title: string)
    ensures PostSlug(PostSlug(title)) == PostSlug(title)
  {
    var r := PostSlug(title);
    SlugifyLowered(title);
    assert IsLowered(r) by {
      forall i | 0 <= i < |r|
        ensures LowerChar(r[i]) == r[i]
      {
        assert r[i] == Slugify(title)[i];
      }
    }
    SlugifyFixed(r);
  }

  /** The `blog_posts` row `savePost` inserts. */
  datatype NewPost = NewPost(
    slug: string,
    title: string,
    subtitle: string,
    content: string,
    authorId: string,
    tags: seq<string>,
    status: string)

  /** The reply to `insert([...]).select("*")`: the error, or the ids of
      the returned rows. */
  datatype InsertReply = InsertError(message: string) | InsertedRows(ids: seq<string>)

  /** How `savePost` ends. */
  datatype SaveOutcome =
    | NoUser                                         // `currentUser.id` throws before the insert
    | SaveFailed(message: string)                    // the insert's error is rethrown
    | Saved(row: NewPost, redirect: Option<string>)  // the row was inserted

  /** The status `savePost` writes. */
  const DraftedStatus := "drafted"

  /** The editor address of a new post: the printed username passed
      through `encode` (`encodeURIComponent`), then the post id. */
  function EditUrl(u: User, postId: string, encode: string -> string): string {
    "/post/@" + encode(JsText(u.username)) + "/" + postId + "/edit?success=true"
  }

  /** `savePost`, parametrised by the status it writes. */
  function SaveWithStatus(status: string, title: string, subtitle: string, contentHtml: string, tags: seq<string>,
                          currentUser: Option<User>, reply: InsertReply, encode: string -> string): (r: SaveOutcome)
    ensures currentUser.None? <==> r.NoUser?
    ensures currentUser.Some? && reply.InsertError? ==> r == SaveFailed(reply.message)
    ensures currentUser.Some? && reply.InsertedRows? ==> r.Saved?
    ensures r.Saved? ==>
      && currentUser.Some? && reply.InsertedRows?
      && r.row == NewPost(PostSlug(title), title, subtitle, contentHtml, currentUser.value.id, tags, status)
      && (r.redirect.Some? <==> |reply.ids| > 0)
      && (r.redirect.Some? ==> r.redirect.value == EditUrl(currentUser.value, reply.ids[0], encode))
  {
    match currentUser
    case None => NoUser
    case Some(u) =>
      var row := NewPost(PostSlug(title), title, subtitle, contentHtml, u.id, tags, status);
      match reply
      case InsertError(m) => SaveFailed(m)
      case InsertedRows(ids) =>
        if |ids| > 0 then
          Saved(row, Some(EditUrl(u, ids[0], encode)))
        else Saved(row, None)
  }

  /** `savePost(title, subtitle, contentHtml, tags, currentUser)` as written:
      the row is stored with the status "drafted". */
  function SavePost(title: string, subtitle: string, contentHtml: string, tags: seq<string>,
                    currentUser: Option<User>, reply: InsertReply, encode: string -> string): (r: SaveOutcome)
    ensures r.Saved? ==> r.row.status == DraftedStatus && r.row.slug == PostSlug(title)
    ensures currentUser.Some? && reply.InsertedRows? ==> r.Saved? && r.row.authorId == currentUser.value.id
    ensures currentUser.None? ==> r == NoUser
  {
    SaveWithStatus(DraftedStatus, title, subtitle, contentHtml, tags, currentUser, reply, encode)
  }

  /** The post `savePost` stores is listed under neither status that
      `filterPostsByStatus` accepts, "draft" or "posted". */
  lemma SavedPostInNoTab(title: string, subtitle: string, contentHtml: string, tags: seq<string>, u: User,
                         ids: seq<string>, encode: string -> string, s: BlogPosts.State, p: Post)
    requires p in s.blogDb
    requires var r := SavePost(title, subtitle, contentHtml, tags, Some(u), InsertedRows(ids), encode);
             p.status == r.row.status && p.authorId == r.row.authorId
    ensures p !in BlogPosts.FilterPostsByStatus(s, u.id, "draft")
    ensures p !in BlogPosts.FilterPostsByStatus(s, u.id, "posted")
  {
  }

  /** `savePost` with the status the post list selects on, "draft". */
  function SavePostAsDraft(title: string, subtitle: string, contentHtml: string, tags: seq<string>,
                           currentUser: Option<User>, reply: InsertReply, encode: string -> string): (r: SaveOutcome)
    ensures r.Saved? ==> r.row.status == "draft" && r.row.slug == PostSlug(title)
    ensures currentUser.Some? && reply.InsertedRows? ==> r.Saved? && r.row.authorId == currentUser.value.id
    ensures currentUser.None? ==> r == NoUser
  {
    SaveWithStatus("draft", title, subtitle, contentHtml, tags, currentUser, reply, encode)
  }

  /** A post saved as a draft is listed among its author's drafts. */
  lemma SavedDraftListed(title: string, subtitle: string, contentHtml: string, tags: seq<string>, u: User,
                         ids: seq<string>, encode: string -> string, s: BlogPosts.State, p: Post)
    requires p in s.blogDb
    requires var r := SavePostAsDraft(title, subtitle, contentHtml, tags, Some(u), InsertedRows(ids), encode);
             p.status == r.row.status && p.authorId == r.row.authorId
    ensures p in BlogPosts.FilterPostsByStatus(s, u.id, "draft")
  {
    var k :| 0 <= k < |s.blogDb| && s.blogDb[k] == p;
    assert BlogPosts.ByAuthorWithStatus(s.blogDb[k], u.id, "draft");
  }

  // ---------------------------------------------------------------------------
  // manageTags

  /** A `categories` row; the table is keyed by its slug. */
  datatype Category = Category(id: string, name: string, slug: string, postLength: Option<int>)

  /** The categories table and the `categories_id` ref after `manageTags`. */
  datatype TagsOutcome = TagsOutcome(table: map<string, Category>, categoriesId: Option<string>)

  /** `post_length` read as a number (`null + 1` is 1 in JavaScript); an
      absent category counts 0. */
  function PostLength(table: map<string, Category>, slug: string): int {
    if slug in table then table[slug].postLength.GetOr(0) else 0
  }

  /** The number of tags whose slug is `slug`. */
  function Occurrences(tags: seq<string>, slug: string): nat {
    if |tags| == 0 then 0
    else (if Slugify(tags[0]) == slug then 1 else 0) + Occurrences(tags[1..], slug)
  }

  /** One iteration of the loop for `tag`. The `k`-th update succeeds when
      `updateOk(k)`; the `k`-th insert yields `insertId(k)`, or nothing when
      it fails. */
  function Step(table: map<string, Category>, categoriesId: Option<string>, tag: string, k: nat,
                insertId: nat -> Option<string>, updateOk: nat -> bool): (map<string, Category>, Option<string>)
  {
    var slug := Slugify(tag);
    if slug in table then
      var existing := table[slug];
      if updateOk(k) then (table[slug := existing.(postLength := Some(PostLength(table, slug) + 1))], categoriesId)
      else (table, categoriesId)
    else
      match insertId(k)
      case Some(id) => (table[slug := Category(id, tag, slug, Some(1))], Some(id))
      case None => (table, categoriesId)
  }

  /** What one iteration does: an existing category gets its count plus
      one, a missing one is created and its id becomes `categories_id`, and
      every other category stays. */
  function TagStep(table: map<string, Category>, categoriesId: Option<string>, tag: string, k: nat,
                   insertId: nat -> Option<string>, updateOk: nat -> bool)
    : (r: (map<string, Category>, Option<string>))
    ensures r.0.Keys == if insertId(k).Some? then table.Keys + {Slugify(tag)} else table.Keys
    ensures forall s :: s in table && s != Slugify(tag) ==> r.0[s] == table[s]
    ensures Slugify(tag) in table ==>
      r.1 == categoriesId &&
      r.0[Slugify(tag)] == (if updateOk(k) then table[Slugify(tag)].(postLength := Some(PostLength(table, Slugify(tag)) + 1))
                            else table[Slugify(tag)])
    ensures Slugify(tag) !in table && insertId(k).Some? ==>
      r.1 == insertId(k) && r.0[Slugify(tag)] == Category(insertId(k).value, tag, Slugify(tag), Some(1))
    ensures Slugify(tag) !in table && insertId(k).None? ==> r == (table, categoriesId)
  {
    Step(table, categoriesId, tag, k, insertId, updateOk)
  }

  /** The loop over `tags`, whose first element is the `k`-th tag. */
  function Loop(table: map<string, Category>, categoriesId: Option<string>, tags: seq<string>, k: nat,
                insertId: nat -> Option<string>, updateOk: nat -> bool): (map<string, Category>, Option<string>)
    decreases |tags|
  {
    if |tags| == 0 then (table, categoriesId)
    else
      var step := Step(table, categoriesId, tags[0], k, insertId, updateOk);
      Loop(step.0, step.1, tags[1..], k + 1, insertId, updateOk)
  }

  /** What the loop keeps: no category disappears, categories no tag names
      stay as they were, and `categories_id` keeps its value or holds an id
      created in the loop. */
  lemma {:induction false} LoopFacts(table: map<string, Category>, categoriesId: Option<string>, tags: seq<string>,
                                     k: nat, insertId: nat -> Option<string>, updateOk: nat -> bool)
    ensures var r := Loop(table, categoriesId, tags, k, insertId, updateOk);
            && table.Keys <= r.0.Keys
            && (forall s :: s in table && Occurrences(tags, s) == 0 ==> r.0[s] == table[s])
            && (r.1 == categoriesId || exists j :: k <= j < k + |tags| && r.1 == insertId(j))
    decreases |tags|
  {
    if |tags| > 0 {
      var step := TagStep(table, categoriesId, tags[0], k, insertId, updateOk);
      LoopFacts(step.0, step.1, tags[1..], k + 1, insertId, updateOk);
      var r := Loop(table, categoriesId, tags, k, insertId, updateOk);
      assert r == Loop(step.0, step.1, tags[1..], k + 1, insertId, updateOk);
      if r.1 == step.1 && step.1 != categoriesId {
        assert r.1 == insertId(k);
      }
    }
  }

  /** The loop over `tags`, whose first element is the `k`-th tag. */
  function TagLoop(table: map<string, Category>, categoriesId: Option<string>, tags: seq<string>, k: nat,
                   insertId: nat -> Option<string>, updateOk: nat -> bool)
    : (r: (map<string, Category>, Option<string>))
    ensures table.Keys <= r.0.Keys
    ensures forall s :: s in table && Occurrences(tags, s) == 0 ==> r.0[s] == table[s]
    ensures r.1 == categoriesId || exists j :: k <= j < k + |tags| && r.1 == insertId(j)
  {
    LoopFacts(table, categoriesId, tags, k, insertId, updateOk);
    Loop(table, categoriesId, tags, k, insertId, updateOk)
  }

  /** `manageTags(tags)`, starting from the current `categories_id`. Only
      categories named by some tag change, none disappears, and the ref
      either keeps its value or holds the id of a category the call
      created. */
  function ManageTags(table: map<string, Category>, categoriesId: Option<string>, tags: seq<string>,
                      insertId: nat -> Option<string>, updateOk: nat -> bool): (r: TagsOutcome)
    ensures table.Keys <= r.table.Keys
    ensures forall s :: s in table && Occurrences(tags, s) == 0 ==> r.table[s] == table[s]
    ensures r.categoriesId == categoriesId || exists j :: 0 <= j < |tags| && r.categoriesId == insertId(j)
  {
    var loop := TagLoop(table, categoriesId, tags, 0, insertId, updateOk);
    TagsOutcome(loop.0, loop.1)
  }

  lemma {:induction false} LoopSnoc(table: map<string, Category>, categoriesId: Option<string>, tags: seq<string>,
                                    tag: string, k: nat, insertId: nat -> Option<string>, updateOk: nat -> bool)
    ensures var pre := Loop(table, categoriesId, tags, k, insertId, updateOk);
            Loop(table, categoriesId, tags + [tag], k, insertId, updateOk)
              == Step(pre.0, pre.1, tag, k + |tags|, insertId, updateOk)
    decreases |tags|
  {
    if |tags| == 0 {
      assert tags + [tag] == [tag];
      assert [tag][1..] == [];
    } else {
      var step := Step(table, categoriesId, tags[0], k, insertId, updateOk);
      assert (tags + [tag])[0] == tags[0];
      assert (tags + [tag])[1..] == tags[1..] + [tag];
      LoopSnoc(step.0, step.1, tags[1..], tag, k + 1, insertId, updateOk);
    }
  }

  /** The loop is the iteration of its body: processing one more tag is one
      more step after the others. */
  lemma TagLoopSnoc(table: map<string, Category>, categoriesId: Option<string>, tags: seq<string>,
                    tag: string, k: nat, insertId: nat -> Option<string>, updateOk: nat -> bool)
    ensures var pre := TagLoop(table, categoriesId, tags, k, insertId, updateOk);
            TagLoop(table, categoriesId, tags + [tag], k, insertId, updateOk)
              == TagStep(pre.0, pre.1, tag, k + |tags|, insertId, updateOk)
  {
    LoopSnoc(table, categoriesId, tags, tag, k, insertId, updateOk);
  }

  /** When the last tag creates its category, `categories_id` ends as that
      category's id. */
  lemma LastNewTagSetsId(table: map<string, Category>, categoriesId: Option<string>, tags: seq<string>,
                         insertId: nat -> Option<string>, updateOk: nat -> bool)
    requires |tags| > 0
    requires Slugify(tags[|tags| - 1]) !in TagLoop(table, categoriesId, tags[..|tags| - 1], 0, insertId, updateOk).0
    requires insertId(|tags| - 1).Some?
    ensures ManageTags(table, categoriesId, tags, insertId, updateOk).categoriesId == insertId(|tags| - 1)
  {
    var n := |tags| - 1;
    assert tags == tags[..n] + [tags[n]];
    TagLoopSnoc(table, categoriesId, tags[..n], tags[n], 0, insertId, updateOk);
  }

  lemma {:induction false} LoopCounts(table: map<string, Category>, categoriesId: Option<string>, tags: seq<string>,
                                      k: nat, insertId: nat -> Option<string>, updateOk: nat -> bool, slug: string)
    requires forall j: nat :: j >= k ==> insertId(j).Some? && updateOk(j)
    ensures var r := Loop(table, categoriesId, tags, k, insertId, updateOk).0;
            PostLength(r, slug) == PostLength(table, slug) + Occurrences(tags, slug) &&
            (Occurrences(tags, slug) > 0 ==> slug in r)
    decreases |tags|
  {
    if |tags| > 0 {
      var step := TagStep(table, categoriesId, tags[0], k, insertId, updateOk);
      LoopCounts(step.0, step.1, tags[1..], k + 1, insertId, updateOk, slug);
      var r := Loop(step.0, step.1, tags[1..], k + 1, insertId, updateOk).0;
      assert Loop(table, categoriesId, tags, k, insertId, updateOk).0 == r;
      if Slugify(tags[0]) == slug {
        assert PostLength(step.0, slug) == PostLength(table, slug) + 1;
        assert slug in step.0;
        LoopFacts(step.0, step.1, tags[1..], k + 1, insertId, updateOk);
        assert slug in r;
      } else {
        assert PostLength(step.0, slug) == PostLength(table, slug);
      }
    }
  }

  /** When every update and insert succeeds, each category's post count
      grows by the number of tags with its slug, and every tag's slug ends
      up in the table. */
  lemma TagLoopCounts(table: map<string, Category>, categoriesId: Option<string>, tags: seq<string>,
                      k: nat, insertId: nat -> Option<string>, updateOk: nat -> bool, slug: string)
    requires forall j: nat :: j >= k ==> insertId(j).Some? && updateOk(j)
    ensures var r := TagLoop(table, categoriesId, tags, k, insertId, updateOk).0;
            PostLength(r, slug) == PostLength(table, slug) + Occurrences(tags, slug) &&
            (Occurrences(tags, slug) > 0 ==> slug in r)
  {
    LoopCounts(table, categoriesId, tags, k, insertId, updateOk, slug);
  }

  /** `manageTags` when every call succeeds: the counts of the previous
      lemma, for the whole tag list. */
  lemma ManageTagsCounts(table: map<string, Category>, categoriesId: Option<string>, tags: seq<string>,
                         insertId: nat -> Option<string>, updateOk: nat -> bool, slug: string)
    requires forall j: nat :: insertId(j).Some? && updateOk(j)
    ensures var r := ManageTags(table, categoriesId, tags, insertId, updateOk).table;
            PostLength(r, slug) == PostLength(table, slug) + Occurrences(tags, slug) &&
            (Occurrences(tags, slug) > 0 ==> slug in r)
  {
    TagLoopCounts(table, categoriesId, tags, 0, insertId, updateOk, slug);
  }

  /** No tag from the `k`-th on creates a category: each slug is in the
      table already, or its insert fails. */
  predicate NoCreation(table: map<string, Category>, tags: seq<string>, k: nat, insertId: nat -> Option<string>) {
    forall i :: 0 <= i < |tags| ==> Slugify(tags[i]) in table || insertId(k + i).None?
  }

  lemma NoCreationTail(table: map<string, Category>, after: map<string, Category>, tags: seq<string>, k: nat,
                       insertId: nat -> Option<string>)
    requires |tags| > 0 && NoCreation(table, tags, k, insertId) && after.Keys == table.Keys
    ensures NoCreation(after, tags[1..], k + 1, insertId)
  {
    forall i | 0 <= i < |tags[1..]|
      ensures Slugify(tags[1..][i]) in after || insertId(k + 1 + i).None?
    {
      assert tags[1..][i] == tags[i + 1];
      assert k + 1 + i == k + (i + 1);
    }
  }

  lemma {:induction false} LoopNoCreation(table: map<string, Category>, categoriesId: Option<string>, tags: seq<string>,
                                          k: nat, insertId: nat -> Option<string>, updateOk: nat -> bool)
    requires NoCreation(table, tags, k, insertId)
    ensures Loop(table, categoriesId, tags, k, insertId, updateOk).1 == categoriesId
    decreases |tags|
  {
    if |tags| > 0 {
      assert Slugify(tags[0]) in table || insertId(k + 0).None?;
      var step := TagStep(table, categoriesId, tags[0], k, insertId, updateOk);
      assert step.0.Keys == table.Keys && step.1 == categoriesId;
      NoCreationTail(table, step.0, tags, k, insertId);
      LoopNoCreation(step.0, step.1, tags[1..], k + 1, insertId, updateOk);
      assert Loop(table, categoriesId, tags, k, insertId, updateOk)
          == Loop(step.0, step.1, tags[1..], k + 1, insertId, updateOk);
    }
  }

  /** When no tag creates a category (each already has one, or its insert
      fails), `categories_id` keeps its previous value. */
  lemma NoCreationKeepsId(table: map<string, Category>, categoriesId: Option<string>, tags: seq<string>,
                          k: nat, insertId: nat -> Option<string>, updateOk: nat -> bool)
    requires forall i :: 0 <= i < |tags| ==> Slugify(tags[i]) in table || insertId(k + i).None?
    ensures TagLoop(table, categoriesId, tags, k, insertId, updateOk).1 == categoriesId
  {
    LoopNoCreation(table, categoriesId, tags, k, insertId, updateOk);
  }
}

/** server/list/updatingList.ts: renaming a reading list. */
module UpdatingList {
  import opened Base
  import opened Records
  import opened Slug

  /** The record passed to `update(...)`. */
  datatype ListUpdate = ListUpdate(name: string, slug: string, description: string, status: Option<string>)

  /** `name ?? ''`, the slug of the name or `''`, `description ?? ''`, and
      `status` as given. */
  function UpdateRecord(name: Option<string>, description: Option<string>, status: Option<string>): (u: ListUpdate)
    ensures name.Some? ==> u.name == name.value && u.slug == Slugify(name.value)
    ensures name.None? ==> u.name == "" && u.slug == ""
    ensures u.description == description.GetOr("") && u.status == status
    ensures NoSpace(u.slug)
  {
    match name
    case Some(n) => ListUpdate(n, Slugify(n), description.GetOr(""), status)
    case None => ListUpdate("", "", description.GetOr(""), status)
  }

  predicate Targets(row: ListRow, userId: string, listId: string) {
    row.userId == userId && row.id == listId
  }

  function Apply(row: ListRow, u: ListUpdate): ListRow {
    row.(name := u.name, slug := Some(u.slug), description := u.description, status := u.status)
  }

  /** `updatingList(name, description, status, user_id, list_id)`. A failed
      update leaves the table alone and returns `null`; a successful one
      rewrites the rows of that user with that id and returns them. */
  function UpdatingListCall(table: seq<ListRow>, name: Option<string>, description: Option<string>,
                            status: Option<string>, userId: string, listId: string, failed: bool)
    : (r: (seq<ListRow>, Option<seq<ListRow>>))
    ensures failed ==> r == (table, None)
    ensures !failed ==> |r.0| == |table| && r.1.Some?
    ensures !failed ==> forall i :: 0 <= i < |table| ==>
      r.0[i] == (if Targets(table[i], userId, listId) then Apply(table[i], UpdateRecord(name, description, status))
                 else table[i])
    ensures !failed ==> forall i :: 0 <= i < |r.1.value| ==>
      r.1.value[i] in r.0 && Targets(r.1.value[i], userId, listId)
    ensures !failed ==> forall i :: 0 <= i < |r.0| && Targets(r.0[i], userId, listId) ==> r.0[i] in r.1.value
    ensures !failed ==> r.1.value == Map(Filter(table, (row: ListRow) => Targets(row, userId, listId)),
                                         (row: ListRow) => Apply(row, UpdateRecord(name, description, status)))
  {
    if failed then (table, None)
    else
      var u := UpdateRecord(name, description, status);
      var updated := seq(|table|, i requires 0 <= i < |table| =>
                         if Targets(table[i], userId, listId) then Apply(table[i], u) else table[i]);
      FilterRewritten(table, updated, (row: ListRow) => Targets(row, userId, listId), (row: ListRow) => Apply(row, u));
      (updated, Some(Filter(updated, (row: ListRow) => Targets(row, userId, listId))))
  }

  /** Sending the same update twice leaves the table as sending it once. */
  lemma UpdatingListIdempotent(table: seq<ListRow>, name: Option<string>, description: Option<string>,
                               status: Option<string>, userId: string, listId: string)
    ensures var once := UpdatingListCall(table, name, description, status, userId, listId, false).0;
            UpdatingListCall(once, name, description, status, userId, listId, false).0 == once
  {
  }

  /** The stored slug is the slug of the stored name, and is itself a fixed
      point of the slug rule. */
  lemma UpdatedSlugMatchesName(name: string, description: Option<string>, status: Option<string>)
    ensures var u := UpdateRecord(Some(name), description, status);
            u.slug == Slugify(u.name) && Slugify(u.slug) == u.slug
  {
    SlugifyIdempotent(name);
  }
}
