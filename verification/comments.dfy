/** The in-memory comment tree of composables/useComment.ts: comments stored
    by id, a list of root ids, and each comment's list of reply ids. The id
    (`Date.now()`) and the timestamp are parameters. */
module CommentTree {
  import opened Base

  datatype Comment = Comment(id: int, author: string, content: string, date: string, likes: int, replyIds: seq<int>)

  datatype Tree = Tree(comments: map<int, Comment>, roots: seq<int>)

  /** The result of `addComment`: the new tree and the returned id. */
  datatype Added = Added(tree: Tree, id: int)

  /** `if (parentId)`: an absent parent and the id 0 are both falsy. */
  predicate TruthyId(parentId: Option<int>) {
    parentId.Some? && parentId.value != 0
  }

  function NewComment(id: int, content: string, date: string): Comment {
    Comment(id, "Current User", content, date, 0, [])
  }

  /** Every root id and every reply id names a stored comment. */
  ghost predicate Closed(t: Tree) {
    && (forall i :: 0 <= i < |t.roots| ==> t.roots[i] in t.comments)
    && (forall k, j :: k in t.comments && 0 <= j < |t.comments[k].replyIds| ==>
          t.comments[k].replyIds[j] in t.comments)
  }

  /** `addComment(content, parentId)`. The new comment is stored first, and
      the parent is looked up afterwards, in the updated map. */
  function AddComment(t: Tree, content: string, parentId: Option<int>, now: int, date: string): (r: Added)
    ensures r.id == now
    ensures r.tree.comments.Keys == t.comments.Keys + {now}
    ensures !TruthyId(parentId) ==>
      r.tree.roots == [now] + t.roots &&
      r.tree.comments[now] == NewComment(now, content, date)
    ensures TruthyId(parentId) ==> r.tree.roots == t.roots
    ensures TruthyId(parentId) && parentId.value != now ==>
      r.tree.comments[now] == NewComment(now, content, date)
    ensures TruthyId(parentId) && parentId.value != now && parentId.value in t.comments ==>
      r.tree.comments[parentId.value] ==
        t.comments[parentId.value].(replyIds := t.comments[parentId.value].replyIds + [now])
    ensures forall k :: k in t.comments && k != now && !(TruthyId(parentId) && k == parentId.value) ==>
      r.tree.comments[k] == t.comments[k]
  {
    var stored := t.comments[now := NewComment(now, content, date)];
    if TruthyId(parentId) then
      var p := parentId.value;
      if p in stored then
        Added(Tree(stored[p := stored[p].(replyIds := stored[p].replyIds + [now])], t.roots), now)
      else
        Added(Tree(stored, t.roots), now)
    else
      Added(Tree(stored, [now] + t.roots), now)
  }

  /** A truthy parent that is not stored: the comment is stored, but it is
      reachable from neither the roots nor any reply list. */
  lemma OrphanReply(t: Tree, content: string, p: int, now: int, date: string)
    requires p != 0 && p != now && p !in t.comments
    requires forall k, j :: k in t.comments && 0 <= j < |t.comments[k].replyIds| ==>
               t.comments[k].replyIds[j] != now
    requires forall i :: 0 <= i < |t.roots| ==> t.roots[i] != now
    ensures var r := AddComment(t, content, Some(p), now, date).tree;
            && now !in r.roots
            && forall k, j :: k in r.comments && 0 <= j < |r.comments[k].replyIds| ==>
                 r.comments[k].replyIds[j] != now
  {
  }

  /** Adding a comment keeps every id reference pointing at a stored
      comment. */
  lemma AddPreservesClosed(t: Tree, content: string, parentId: Option<int>, now: int, date: string)
    requires Closed(t)
    ensures Closed(AddComment(t, content, parentId, now, date).tree)
  {
    var r := AddComment(t, content, parentId, now, date).tree;
    forall k, j | k in r.comments && 0 <= j < |r.comments[k].replyIds|
      ensures r.comments[k].replyIds[j] in r.comments
    {
      if k == now {
        assert r.comments[k].replyIds[j] == now;
      } else if TruthyId(parentId) && k == parentId.value && k in t.comments {
        var before := t.comments[k].replyIds;
        assert r.comments[k].replyIds == before + [now];
        if j < |before| {
          assert r.comments[k].replyIds[j] == before[j];
        }
      } else {
        assert r.comments[k] == t.comments[k];
      }
    }
  }

  /** `initializeComments()`: comments 1 -> 2 -> 3 linked by reply ids, with
      comment 1 the only root. */
  function InitialTree(): (t: Tree)
    ensures Closed(t)
    ensures t.roots == [1] && t.comments.Keys == {1, 2, 3}
    ensures t.comments[1].replyIds == [2] && t.comments[2].replyIds == [3] && t.comments[3].replyIds == []
  {
    var c1 := Comment(1, "John Doe", "This is a great post! Really enjoyed reading it.", "2024-04-03T10:00:00Z", 5, [2]);
    var c2 := Comment(2, "Jane Smith", "I completely agree with you!", "2024-04-03T10:30:00Z", 3, [3]);
    var c3 := Comment(3, "Mike Johnson", "Thanks for sharing your thoughts!", "2024-04-03T11:00:00Z", 1, []);
    Tree(map[1 := c1, 2 := c2, 3 := c3], [1])
  }
}
