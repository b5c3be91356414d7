/** The like and follow toggles: server/post/likePost.ts,
    assets/server/comments/likeComment.ts and likeReplies.ts,
    assets/server/categories/followCategory.ts with getCategoryFollowedBy.ts,
    server/user/followAuthor.ts, and server/post/showMoreOrLess.ts. Each first
    looks the user up in a relation table and then calls a counter procedure
    of the hosted service. The relation tables are sets of pairs; a failed
    lookup is an oracle flag; the counter procedures are recorded as calls,
    and what they do to the counters is not modelled. */
module Toggles {
  import opened Base

  /** A call of a remote procedure with the arguments `{ x, row_id, user_id }`. */
  datatype Rpc = Rpc(name: string, x: int, rowId: string, userId: string)

  /** A procedure's reply: the error, or the JSON it returned (possibly
      null). */
  datatype RpcReply = RpcFailed(message: string) | RpcData(data: Option<string>)

  /** How a call settles when errors are logged and swallowed: `undefined`
      after a caught error, or the returned value. */
  datatype Settled<T> = Undefined | Returned(value: T)

  /** A toggle's single procedure call and what the function settles to. */
  datatype Toggled<T> = Toggled(call: Rpc, result: T)

  /** The procedure a toggle calls: the "undo" one when the user is already
      recorded, the "do" one otherwise. */
  function ToggleCall(recorded: bool, undo: string, do: string, x: int, id: string, userId: string): (c: Rpc)
    ensures c.x == x && c.rowId == id && c.userId == userId
    ensures c.name == (if recorded then undo else do)
  {
    Rpc(if recorded then undo else do, x, id, userId)
  }

  /** `likePost(x, id, userId)`. `likedBy` holds (post, user) pairs of
      `like_by`. Errors are logged and the (then null) data returned. */
  function LikePost(likedBy: set<(string, string)>, lookupFailed: bool, x: int, id: string, userId: string,
                    reply: RpcReply): (r: Toggled<Option<string>>)
    ensures r.call.name == "decrement" <==> !lookupFailed && (id, userId) in likedBy
    ensures r.call.name == "increment" <==> lookupFailed || (id, userId) !in likedBy
    ensures r.call.x == x && r.call.rowId == id && r.call.userId == userId
    ensures reply.RpcFailed? ==> r.result.None?
    ensures reply.RpcData? ==> r.result == reply.data
  {
    var liked := !lookupFailed && (id, userId) in likedBy;
    var data := if reply.RpcData? then reply.data else None;
    Toggled(ToggleCall(liked, "decrement", "increment", x, id, userId), data)
  }

  /** `likeComment(x, id, userId)`. A procedure error is rethrown, wrapped
      twice: `new Error(new Error(message))` carries "Error: " + message. */
  function LikeComment(likedBy: set<(string, string)>, lookupFailed: bool, x: int, id: string, userId: string,
                       reply: RpcReply): (r: Toggled<Result<Option<string>>>)
    ensures r.call.name == "decrement_comment_like" <==> !lookupFailed && (id, userId) in likedBy
    ensures r.call.name == "increment_comment_like" <==> lookupFailed || (id, userId) !in likedBy
    ensures r.call.x == x && r.call.rowId == id && r.call.userId == userId
    ensures reply.RpcFailed? ==> r.result == Raised("Error: " + reply.message)
    ensures reply.RpcData? ==> r.result == Ok(reply.data)
  {
    var liked := !lookupFailed && (id, userId) in likedBy;
    var result := match reply
      case RpcFailed(m) => Raised("Error: " + m)
      case RpcData(d) => Ok(d);
    Toggled(ToggleCall(liked, "decrement_comment_like", "increment_comment_like", x, id, userId), result)
  }

  /** `likeReplies(x, id, user_id)`. The found row counts only when its
      `user_id` is truthy, so an empty user id always likes. Errors are
      logged and the function settles to `undefined`. */
  function LikeReplies(likedBy: set<(string, string)>, lookupFailed: bool, x: int, id: string, userId: string,
                       reply: RpcReply): (r: Toggled<Settled<Option<string>>>)
    ensures r.call.name == "decrement_replies_like" <==> !lookupFailed && (id, userId) in likedBy && userId != ""
    ensures r.call.name == "increment_replies_like" <==> lookupFailed || (id, userId) !in likedBy || userId == ""
    ensures r.call.x == x && r.call.rowId == id && r.call.userId == userId
    ensures reply.RpcFailed? ==> r.result == Undefined
    ensures reply.RpcData? ==> r.result == Returned(reply.data)
  {
    var liked := !lookupFailed && (id, userId) in likedBy && userId != "";
    var result := match reply
      case RpcFailed(_) => Undefined
      case RpcData(d) => Returned(d);
    Toggled(ToggleCall(liked, "decrement_replies_like", "increment_replies_like", x, id, userId), result)
  }

  /** The reply and comment toggles pick the same direction except for the
      empty user id, which `likeReplies` never treats as a previous like. */
  lemma RepliesAgreeWithComments(likedBy: set<(string, string)>, lookupFailed: bool, x: int, id: string,
                                 userId: string, reply: RpcReply)
    ensures var c := LikeComment(likedBy, lookupFailed, x, id, userId, reply).call.name;
            var r := LikeReplies(likedBy, lookupFailed, x, id, userId, reply).call.name;
            (r == "decrement_replies_like" <==> c == "decrement_comment_like" && userId != "")
  {
  }

  /** `getCategoryFollowedBy(category_id, user_id)`: the matching rows
      (`data || []`), or `undefined` when the query fails. */
  function GetCategoryFollowedBy(followedBy: set<(string, string)>, lookupFailed: bool, categoryId: string,
                                 userId: string): (r: Settled<bool>)
    ensures lookupFailed <==> r.Undefined?
    ensures r.Returned? ==> (r.value <==> (categoryId, userId) in followedBy)
  {
    if lookupFailed then Undefined else Returned((categoryId, userId) in followedBy)
  }

  /** `followCategory(x, id, user_id)`: unfollows when a row is found,
      follows otherwise (also when the lookup failed). Errors are logged and
      the function settles to `undefined`. */
  function FollowCategory(followedBy: set<(string, string)>, lookupFailed: bool, x: int, id: string,
                          userId: string, reply: RpcReply): (r: Toggled<Settled<Option<string>>>)
    ensures r.call.name == "decrement_category_follower" <==> !lookupFailed && (id, userId) in followedBy
    ensures r.call.name == "increment_category_follower" <==> lookupFailed || (id, userId) !in followedBy
    ensures r.call.x == x && r.call.rowId == id && r.call.userId == userId
    ensures reply.RpcFailed? ==> r.result == Undefined
    ensures reply.RpcData? ==> r.result == Returned(reply.data)
  {
    var following := GetCategoryFollowedBy(followedBy, lookupFailed, id, userId) == Returned(true);
    var result := match reply
      case RpcFailed(_) => Undefined
      case RpcData(d) => Returned(d);
    Toggled(ToggleCall(following, "decrement_category_follower", "increment_category_follower", x, id, userId), result)
  }

  /** The change to the follower relation that the two category procedures
      are named for: the decrement drops the (category, user) pair, the
      increment adds it. */
  function CategoryFollowersAfter(followedBy: set<(string, string)>, call: Rpc): set<(string, string)> {
    if call.name == "decrement_category_follower" then followedBy - {(call.rowId, call.userId)}
    else if call.name == "increment_category_follower" then followedBy + {(call.rowId, call.userId)}
    else followedBy
  }

  /** With both lookups answered, one toggle flips whether the user follows
      the category, and a second toggle restores the relation. */
  lemma FollowCategoryTwiceRestores(followedBy: set<(string, string)>, x: int, id: string, userId: string,
                                    first: RpcReply, second: RpcReply)
    ensures var once := CategoryFollowersAfter(followedBy, FollowCategory(followedBy, false, x, id, userId, first).call);
            var twice := CategoryFollowersAfter(once, FollowCategory(once, false, x, id, userId, second).call);
            ((id, userId) in once <==> (id, userId) !in followedBy) && twice == followedBy
  {
    var once := CategoryFollowersAfter(followedBy, FollowCategory(followedBy, false, x, id, userId, first).call);
    if (id, userId) in followedBy {
      assert once == followedBy - {(id, userId)};
      assert once + {(id, userId)} == followedBy;
    } else {
      assert once == followedBy + {(id, userId)};
      assert once - {(id, userId)} == followedBy;
    }
  }

  // ---------------------------------------------------------------------------
  // followAuthor

  /** What `followAuthor` returns: `null` after an error, otherwise the
      procedure's data, with or without the (null) insert data. */
  datatype FollowReturn = FollowNull | WithInsert(followData: Option<string>) | FollowOnly(followData: Option<string>)

  /** The `user_info` pairs (follower, author) after the call, the procedure
      call if one was made, and the returned value. */
  datatype FollowOutcome = FollowOutcome(follows: set<(string, string)>, call: Option<Rpc>, returned: FollowReturn)

  /** The shared tail of both branches: `increment_follower` for the author. */
  function IncrementFollower(follows: set<(string, string)>, x: int, id: string, authorId: string,
                             inserted: bool, rpc: RpcReply): FollowOutcome {
    var call := Some(Rpc("increment_follower", x, id, authorId));
    match rpc
    case RpcFailed(_) => FollowOutcome(follows, call, FollowNull)
    case RpcData(d) => FollowOutcome(follows, call, if inserted then WithInsert(d) else FollowOnly(d))
  }

  /** `followAuthor(currentUser_id, x, id, author_id)` as written. The lookup
      yields an array, which is truthy even when empty, so the relation row
      is inserted only when the lookup itself fails. */
  function FollowAuthor(follows: set<(string, string)>, lookupFailed: bool, currentUserId: string, x: int,
                        id: string, authorId: string, insertFailed: bool, rpc: RpcReply): (r: FollowOutcome)
    ensures !lookupFailed ==> r.follows == follows
    ensures lookupFailed && !insertFailed ==> r.follows == follows + {(currentUserId, authorId)}
    ensures lookupFailed && insertFailed ==> r == FollowOutcome(follows, None, FollowNull)
    ensures !(lookupFailed && insertFailed) ==> r.call == Some(Rpc("increment_follower", x, id, authorId))
    ensures rpc.RpcFailed? ==> r.returned == FollowNull
    ensures rpc.RpcData? && !lookupFailed ==> r.returned == FollowOnly(rpc.data)
    ensures rpc.RpcData? && lookupFailed && !insertFailed ==> r.returned == WithInsert(rpc.data)
  {
    if lookupFailed then
      if insertFailed then FollowOutcome(follows, None, FollowNull)
      else IncrementFollower(follows + {(currentUserId, authorId)}, x, id, authorId, true, rpc)
    else IncrementFollower(follows, x, id, authorId, false, rpc)
  }

  /** As written, following an author one does not yet follow records no
      follower row, although the follower count is incremented. */
  lemma FollowAuthorLosesNewFollower(follows: set<(string, string)>, me: string, x: int, id: string,
                                     authorId: string, rpc: RpcReply)
    requires (me, authorId) !in follows
    ensures var r := FollowAuthor(follows, false, me, x, id, authorId, false, rpc);
            (me, authorId) !in r.follows && r.call == Some(Rpc("increment_follower", x, id, authorId))
  {
  }

  /** `followAuthor` with the evidently intended test: the row is inserted
      when the lookup failed or found nothing. */
  function FollowAuthorIntended(follows: set<(string, string)>, lookupFailed: bool, currentUserId: string, x: int,
                                id: string, authorId: string, insertFailed: bool, rpc: RpcReply): (r: FollowOutcome)
    ensures (currentUserId, authorId) in follows && !lookupFailed ==> r.follows == follows
    ensures (lookupFailed || (currentUserId, authorId) !in follows) && insertFailed ==>
      r == FollowOutcome(follows, None, FollowNull)
    ensures r.follows == follows || r.follows == follows + {(currentUserId, authorId)}
    ensures r.call.Some? ==> r.call.value == Rpc("increment_follower", x, id, authorId)
  {
    if lookupFailed || (currentUserId, authorId) !in follows then
      if insertFailed then FollowOutcome(follows, None, FollowNull)
      else IncrementFollower(follows + {(currentUserId, authorId)}, x, id, authorId, true, rpc)
    else IncrementFollower(follows, x, id, authorId, false, rpc)
  }

  /** With the intended test, every call that reaches the follower count
      leaves the follower recorded. */
  lemma FollowAuthorIntendedRecords(follows: set<(string, string)>, lookupFailed: bool, me: string, x: int,
                                    id: string, authorId: string, insertFailed: bool, rpc: RpcReply)
    ensures var r := FollowAuthorIntended(follows, lookupFailed, me, x, id, authorId, insertFailed, rpc);
            r.call.Some? ==> (me, authorId) in r.follows
  {
  }

  // ---------------------------------------------------------------------------
  // showMoreOrLess

  /** A `user_category_preferences` row. */
  datatype Interaction = Interaction(userId: string, categoryId: string, kind: string)

  /** The reply to the insert: its error, or its (usually null) data. */
  datatype InsertReply = InsertFailed(message: string) | InsertOk(data: Option<seq<Interaction>>)

  /** `type === 'more' ? 'more' : 'less'`. */
  function InteractionKind(kind: string): (k: string)
    ensures k == "more" || k == "less"
    ensures k == "more" <==> kind == "more"
  {
    if kind == "more" then "more" else "less"
  }

  /** `showMoreOrLess(user_id, category_id, type)`: one row is recorded;
      errors are logged and the function settles to `undefined`. */
  function ShowMoreOrLess(table: seq<Interaction>, userId: string, categoryId: string, kind: string,
                          reply: InsertReply): (r: (seq<Interaction>, Settled<seq<Interaction>>))
    ensures reply.InsertFailed? ==> r == (table, Undefined)
    ensures reply.InsertOk? ==>
      r.0 == table + [Interaction(userId, categoryId, InteractionKind(kind))] &&
      r.1 == Returned(reply.data.GetOr([]))
  {
    match reply
    case InsertFailed(_) => (table, Undefined)
    case InsertOk(data) => (table + [Interaction(userId, categoryId, InteractionKind(kind))], Returned(data.GetOr([])))
  }

  /** Every recorded interaction is "more" or "less", whatever types the
      callers pass. */
  lemma {:induction false} InteractionsWellFormed(table: seq<Interaction>, userId: string, categoryId: string,
                                                  kind: string, reply: InsertReply)
    requires forall i :: 0 <= i < |table| ==> table[i].kind == "more" || table[i].kind == "less"
    ensures var t := ShowMoreOrLess(table, userId, categoryId, kind, reply).0;
            forall i :: 0 <= i < |t| ==> t[i].kind == "more" || t[i].kind == "less"
  {
    var t := ShowMoreOrLess(table, userId, categoryId, kind, reply).0;
    forall i | 0 <= i < |t|
      ensures t[i].kind == "more" || t[i].kind == "less"
    {
      if i < |table| {
        assert t[i] == table[i];
      }
    }
  }
}
