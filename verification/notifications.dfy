/** The client-held notification list of composables/useNotifications.ts:
    realtime INSERT/UPDATE/DELETE handling, single and bulk clear,
    mark-all-read, the local update after a follow, and the reaction to the
    current user changing. The `notifications` table of the hosted service
    is a sequence of rows; each remote call either fails (an oracle flag or
    reply) or takes effect. */
module Notifications {
  import opened Base
  import opened Records

  datatype Notification = Notification(
    id: int,
    userId: Option<string>,
    senderId: Option<string>,
    message: string,
    kind: Option<string>,
    status: Option<string>)

  /** A realtime change payload. `Delete` carries `payload.old?.id`. */
  datatype Change =
    | Insert(row: Notification)
    | Update(row: Notification)
    | Delete(oldId: Option<int>)
    | OtherEvent

  /** `currentUser.value?.id`. */
  function CurrentId(current: Option<User>): Option<string> {
    if current.Some? then Some(current.value.id) else None
  }

  /** `n.user_id === currentUser.value?.id`: the row is addressed to the
      signed-in user (a null `user_id` never equals an undefined id). */
  predicate ForUser(n: Notification, current: Option<User>) {
    current.Some? && n.userId == Some(current.value.id)
  }

  predicate AllForUser(list: seq<Notification>, current: Option<User>) {
    forall i :: 0 <= i < |list| ==> ForUser(list[i], current)
  }

  /** `list.filter(n => n.id !== id)`. */
  function WithoutId(list: seq<Notification>, id: int): (r: seq<Notification>)
    ensures forall i :: 0 <= i < |r| ==> r[i].id != id && r[i] in list
    ensures forall i :: 0 <= i < |list| && list[i].id != id ==> list[i] in r
    ensures |r| + |Filter(list, (n: Notification) => n.id == id)| == |list|
  {
    FilterPartition(list, (n: Notification) => n.id != id, (n: Notification) => n.id == id);
    Filter(list, (n: Notification) => n.id != id)
  }

  /** Removing by id keeps the relative order of what remains. */
  lemma WithoutIdConcat(a: seq<Notification>, b: seq<Notification>, id: int)
    ensures WithoutId(a + b, id) == WithoutId(a, id) + WithoutId(b, id)
  {
    FilterConcat(a, b, (n: Notification) => n.id != id);
  }

  /** `list.map(n => n.id === row.id ? row : n)`. */
  function ReplaceById(list: seq<Notification>, row: Notification): (r: seq<Notification>)
    ensures |r| == |list|
    ensures forall i :: 0 <= i < |r| ==> r[i].id == list[i].id
  {
    seq(|list|, i requires 0 <= i < |list| => if list[i].id == row.id then row else list[i])
  }

  /** The realtime handler (useNotifications.ts, lines 212-230). */
  function ApplyChange(list: seq<Notification>, current: Option<User>, change: Change): (r: seq<Notification>)
    ensures change.Insert? && ForUser(change.row, current) ==> r == [change.row] + list
    ensures change.Insert? && !ForUser(change.row, current) ==> r == list
    ensures change.Update? ==> |r| == |list| && forall i :: 0 <= i < |list| ==>
      r[i].id == list[i].id && r[i] == (if list[i].id == change.row.id then change.row else list[i])
    ensures change.Delete? && change.oldId.Some? ==> r == WithoutId(list, change.oldId.value)
    ensures (change.Delete? && change.oldId.None?) || change.OtherEvent? ==> r == list
  {
    match change
    case Insert(row) => if ForUser(row, current) then [row] + list else list
    case Update(row) => ReplaceById(list, row)
    case Delete(oldId) => if oldId.Some? then WithoutId(list, oldId.value) else list
    case OtherEvent => list
  }

  /** An INSERT for a row that is not in the list, followed by the DELETE of
      that row, gives back the original list. */
  lemma InsertThenDelete(list: seq<Notification>, current: Option<User>, row: Notification)
    requires forall i :: 0 <= i < |list| ==> list[i].id != row.id
    ensures ApplyChange(ApplyChange(list, current, Insert(row)), current, Delete(Some(row.id))) == list
  {
    var p := (n: Notification) => n.id != row.id;
    FilterKeepsAll(list, p);
    if ForUser(row, current) {
      assert ([row] + list)[1..] == list;
    }
  }

  /** Receiving the same UPDATE twice is the same as receiving it once. */
  lemma UpdateIdempotent(list: seq<Notification>, current: Option<User>, row: Notification)
    ensures ApplyChange(ApplyChange(list, current, Update(row)), current, Update(row))
         == ApplyChange(list, current, Update(row))
  {
  }

  /** A list holding only the user's own rows keeps that property under
      INSERT and DELETE, and under an UPDATE whose new row is also theirs. */
  lemma ChangePreservesOwnership(list: seq<Notification>, current: Option<User>, change: Change)
    requires AllForUser(list, current)
    requires change.Update? ==> ForUser(change.row, current)
    ensures AllForUser(ApplyChange(list, current, change), current)
  {
    var r := ApplyChange(list, current, change);
    if change.Delete? && change.oldId.Some? {
      forall i | 0 <= i < |r|
        ensures ForUser(r[i], current)
      {
        var k :| 0 <= k < |list| && list[k] == r[i];
      }
    }
  }

  // ---------------------------------------------------------------------------
  // Operations that call the hosted service

  /** The remote table and the local list. */
  datatype Store = Store(table: seq<Notification>, local: seq<Notification>)

  /** A store after an operation, and the value the operation returns
      (`None` is `null`). */
  datatype Step<T> = Step(store: Store, value: Option<T>)

  /** `clearNotification(id)` (lines 143-159); `failed` is the delete's error. */
  function ClearNotification(s: Store, id: int, failed: bool): (r: Step<bool>)
    ensures failed ==> r.store == s && r.value.None?
    ensures !failed ==> r.value == Some(true)
    ensures !failed ==> r.store.table == WithoutId(s.table, id)
    ensures !failed ==> forall i :: 0 <= i < |r.store.local| ==> r.store.local[i].id != id
    ensures !failed ==> forall i :: 0 <= i < |s.local| && s.local[i].id != id ==> s.local[i] in r.store.local
    ensures !failed ==> |r.store.local| <= |s.local|
    ensures !failed ==> r.store.local == WithoutId(s.local, id)
  {
    if failed then Step(s, None)
    else Step(Store(WithoutId(s.table, id), WithoutId(s.local, id)), Some(true))
  }

  /** The `.or("sender_id.eq.<me>,user_id.eq.<me>")` condition, where `<me>`
      is the current id or "" when there is no user. */
  predicate Involves(n: Notification, key: string) {
    n.senderId == Some(key) || n.userId == Some(key)
  }

  function Key(current: Option<User>): string {
    CurrentId(current).GetOr("")
  }

  /** `clearAllNotifications()` (lines 161-177). */
  function ClearAllNotifications(s: Store, current: Option<User>, failed: bool): (r: Step<bool>)
    ensures failed ==> r.store == s && r.value.None?
    ensures !failed ==> r.value == Some(true) && r.store.local == []
    ensures !failed ==> forall i :: 0 <= i < |r.store.table| ==>
      r.store.table[i] in s.table && !Involves(r.store.table[i], Key(current))
    ensures !failed ==> forall i :: 0 <= i < |s.table| && !Involves(s.table[i], Key(current)) ==>
      s.table[i] in r.store.table
  {
    if failed then Step(s, None)
    else Step(Store(Filter(s.table, (n: Notification) => !Involves(n, Key(current))), []), Some(true))
  }

  /** A second clear-all finds nothing more to delete: the store is as the
      first one left it. */
  lemma ClearAllIdempotent(s: Store, current: Option<User>)
    ensures var once := ClearAllNotifications(s, current, false).store;
            ClearAllNotifications(once, current, false).store == once
  {
    var p := (n: Notification) => !Involves(n, Key(current));
    FilterTwice(s.table, p, p, p);
  }

  function MarkRead(n: Notification): Notification {
    n.(status := Some("read"))
  }

  /** `markAllNotificationAsRead()` (lines 179-200): the remote update touches
      only rows involving the user, the local list is marked wholesale, and
      the updated rows are returned. */
  function MarkAllNotificationAsRead(s: Store, current: Option<User>, failed: bool): (r: Step<seq<Notification>>)
    ensures failed ==> r.store == s && r.value.None?
    ensures !failed ==> |r.store.local| == |s.local| && forall i :: 0 <= i < |s.local| ==>
      r.store.local[i].status == Some("read") && r.store.local[i] == s.local[i].(status := r.store.local[i].status)
    ensures !failed ==> |r.store.table| == |s.table| && forall i :: 0 <= i < |s.table| ==>
      r.store.table[i] == (if Involves(s.table[i], Key(current)) then MarkRead(s.table[i]) else s.table[i])
    ensures !failed ==> r.value.Some? && forall i :: 0 <= i < |r.value.value| ==>
      && r.value.value[i].status == Some("read") && r.value.value[i] in r.store.table
      && Involves(r.value.value[i], Key(current))
    ensures !failed ==> r.value.Some? && forall i :: 0 <= i < |r.store.table| && Involves(r.store.table[i], Key(current)) ==>
      r.store.table[i] in r.value.value
    ensures !failed ==> r.value == Some(Map(Filter(s.table, (n: Notification) => Involves(n, Key(current))), MarkRead))
  {
    if failed then Step(s, None)
    else
      var table := seq(|s.table|, i requires 0 <= i < |s.table| =>
                       if Involves(s.table[i], Key(current)) then MarkRead(s.table[i]) else s.table[i]);
      var local := seq(|s.local|, i requires 0 <= i < |s.local| => MarkRead(s.local[i]));
      FilterRewritten(s.table, table, (n: Notification) => Involves(n, Key(current)), MarkRead);
      Step(Store(table, local), Some(Filter(table, (n: Notification) => Involves(n, Key(current)))))
  }

  /** Marking everything read twice leaves the same local list as once. */
  lemma MarkAllReadIdempotent(s: Store, current: Option<User>)
    ensures var once := MarkAllNotificationAsRead(s, current, false).store;
            MarkAllNotificationAsRead(once, current, false).store.local == once.local
  {
  }

  /** The reply to `insert(newNotification).select().single()`: either the
      error, or the id and status the service assigned. */
  datatype InsertReply = InsertFailed(message: string) | Inserted(id: int, status: Option<string>)

  /** The message `${username} started following you`. */
  function FollowMessage(current: Option<User>): string {
    JsText(if current.Some? then current.value.username else None) + " started following you"
  }

  /** `followNotification(author_id)` (lines 108-130). */
  function FollowNotification(s: Store, current: Option<User>, authorId: string, reply: InsertReply)
    : (r: Step<Notification>)
    ensures reply.InsertFailed? ==> r.store == s && r.value.None?
    ensures reply.Inserted? ==> r.value.Some? && r.store.local == [r.value.value] + s.local
    ensures reply.Inserted? ==> r.store.table == s.table + [r.value.value]
    ensures reply.Inserted? ==>
      var n := r.value.value;
      && n.id == reply.id
      && n.userId == Some(authorId)
      && n.senderId == CurrentId(current)
      && n.kind == Some("follow")
      && n.message == FollowMessage(current)
  {
    match reply
    case InsertFailed(_) => Step(s, None)
    case Inserted(id, status) =>
      var row := Notification(id, Some(authorId), CurrentId(current), FollowMessage(current), Some("follow"), status);
      Step(Store(s.table + [row], [row] + s.local), Some(row))
  }

  /** The row a follow puts at the head of the FOLLOWER's own list is
      addressed to the author, so it is not the follower's notification. */
  lemma FollowEntryAddressedToAuthor(s: Store, current: Option<User>, authorId: string, id: int, status: Option<string>)
    requires current.Some? && current.value.id != authorId
    ensures var r := FollowNotification(s, current, authorId, Inserted(id, status));
            !ForUser(r.store.local[0], current)
  {
  }

  /** The watch on the current user (lines 245-252) together with
      `fetchNotification` (lines 93-106): a sign-out empties the list; a
      sign-in replaces it with the user's rows unless the fetch fails. */
  function OnUserChange(s: Store, current: Option<User>, fetchFailed: bool): (r: Store)
    ensures r.table == s.table
    ensures current.None? ==> r.local == []
    ensures current.Some? && fetchFailed ==> r.local == s.local
    ensures current.Some? && !fetchFailed ==> AllForUser(r.local, current)
    ensures current.Some? && !fetchFailed ==> forall i :: 0 <= i < |s.table| && ForUser(s.table[i], current) ==>
      s.table[i] in r.local
    ensures current.Some? && !fetchFailed ==> forall i :: 0 <= i < |r.local| ==> r.local[i] in s.table
    ensures current.Some? && !fetchFailed ==> r.local == Filter(s.table, (n: Notification) => ForUser(n, current))
  {
    match current
    case None => s.(local := [])
    case Some(u) =>
      if fetchFailed then s
      else
        var rows := Filter(s.table, (n: Notification) => n.userId == Some(u.id));
        assert rows == Filter(s.table, (n: Notification) => ForUser(n, current)) by {
          FilterSame(s.table, (n: Notification) => n.userId == Some(u.id), (n: Notification) => ForUser(n, current));
        }
        s.(local := rows)
  }

  /** The realtime changes received one after another. */
  function ApplyAll(list: seq<Notification>, current: Option<User>, changes: seq<Change>): seq<Notification>
    decreases |changes|
  {
    if |changes| == 0 then list
    else ApplyAll(ApplyChange(list, current, changes[0]), current, changes[1..])
  }

  /** A list of the user's own rows stays so under any run of realtime
      changes whose updates carry the user's own rows. */
  lemma {:induction false} ApplyAllPreservesOwnership(list: seq<Notification>, current: Option<User>, changes: seq<Change>)
    requires AllForUser(list, current)
    requires forall i :: 0 <= i < |changes| && changes[i].Update? ==> ForUser(changes[i].row, current)
    ensures AllForUser(ApplyAll(list, current, changes), current)
    decreases |changes|
  {
    if |changes| > 0 {
      ChangePreservesOwnership(list, current, changes[0]);
      ApplyAllPreservesOwnership(ApplyChange(list, current, changes[0]), current, changes[1..]);
    }
  }

  /** After a sign-in loads the list, the realtime handler keeps it a list
      of the signed-in user's notifications. */
  lemma SignInThenChanges(s: Store, current: Option<User>, changes: seq<Change>)
    requires current.Some?
    requires forall i :: 0 <= i < |changes| && changes[i].Update? ==> ForUser(changes[i].row, current)
    ensures AllForUser(ApplyAll(OnUserChange(s, current, false).local, current, changes), current)
  {
    ApplyAllPreservesOwnership(OnUserChange(s, current, false).local, current, changes);
  }

  /** Removing an id twice is removing it once. */
  lemma {:induction false} WithoutIdTwice(list: seq<Notification>, id: int)
    ensures WithoutId(WithoutId(list, id), id) == WithoutId(list, id)
  {
    FilterKeepsAll(WithoutId(list, id), (n: Notification) => n.id != id);
  }

  /** A clear removes from the local list what the realtime DELETE for the
      same id removes, so the DELETE that echoes the clear changes nothing
      more. */
  lemma ClearAgreesWithRealtimeDelete(s: Store, current: Option<User>, id: int)
    ensures var cleared := ClearNotification(s, id, false).store.local;
            cleared == ApplyChange(s.local, current, Delete(Some(id))) &&
            ApplyChange(cleared, current, Delete(Some(id))) == cleared
  {
    WithoutIdTwice(s.local, id);
  }

  /** A follow whose new row is cleared again leaves the store as it was,
      provided the assigned id was not in use. */
  lemma {:induction false} FollowThenClear(s: Store, current: Option<User>, authorId: string, id: int,
                                           status: Option<string>)
    requires forall i :: 0 <= i < |s.table| ==> s.table[i].id != id
    requires forall i :: 0 <= i < |s.local| ==> s.local[i].id != id
    ensures var followed := FollowNotification(s, current, authorId, Inserted(id, status)).store;
            ClearNotification(followed, id, false).store == s
  {
    var followed := FollowNotification(s, current, authorId, Inserted(id, status));
    var row := followed.value.value;
    WithoutIdConcat(s.table, [row], id);
    WithoutIdConcat([row], s.local, id);
    FilterKeepsAll(s.table, (n: Notification) => n.id != id);
    FilterKeepsAll(s.local, (n: Notification) => n.id != id);
    assert WithoutId([row], id) == [];
    assert s.table + [] == s.table;
  }
}
