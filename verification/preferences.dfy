/** Notification preferences: the `notification_preferences` table keyed by
    user id, and utils/checkNotificationPreferences.ts, which reads a user's
    two switches and treats anything missing as "on". */
module Preferences {
  import opened Base

  /** A `notification_preferences` row; either column may be null. */
  datatype PrefRow = PrefRow(emailEnabled: Option<bool>, pushEnabled: Option<bool>)

  datatype Prefs = Prefs(emailEnabled: bool, pushEnabled: bool)

  /** `checkNotificationPreferences(userId)`. The `.single()` query yields no
      row when the user has none or when it fails (`failed`); a missing row
      or a null column reads as `true`. */
  function CheckNotificationPreferences(table: map<string, PrefRow>, userId: string, failed: bool): (r: Prefs)
    ensures !r.emailEnabled <==> !failed && userId in table && table[userId].emailEnabled == Some(false)
    ensures !r.pushEnabled <==> !failed && userId in table && table[userId].pushEnabled == Some(false)
  {
    var row := if !failed && userId in table then Some(table[userId]) else None;
    Prefs(
      if row.Some? then row.value.emailEnabled.GetOr(true) else true,
      if row.Some? then row.value.pushEnabled.GetOr(true) else true)
  }

  /** Both switches must be on for a mail to go out. */
  predicate MailAllowed(p: Prefs) {
    p.emailEnabled && p.pushEnabled
  }

  /** `upsert({ user_id, ...columns }, { onConflict: 'user_id' })`: the
      user's row is created if missing; only the given columns change. */
  function Upsert(table: map<string, PrefRow>, userId: string, email: Option<bool>, push: Option<bool>)
    : (r: map<string, PrefRow>)
    ensures r.Keys == table.Keys + {userId}
    ensures forall u :: u in table && u != userId ==> r[u] == table[u]
    ensures email.Some? ==> r[userId].emailEnabled == email
    ensures email.None? ==> r[userId].emailEnabled == (if userId in table then table[userId].emailEnabled else None)
    ensures push.Some? ==> r[userId].pushEnabled == push
    ensures push.None? ==> r[userId].pushEnabled == (if userId in table then table[userId].pushEnabled else None)
  {
    var before := if userId in table then table[userId] else PrefRow(None, None);
    table[userId := PrefRow(if email.Some? then email else before.emailEnabled,
                            if push.Some? then push else before.pushEnabled)]
  }

  /** Writing a switch and reading it back gives what was written. */
  lemma UpsertThenCheck(table: map<string, PrefRow>, userId: string, email: bool)
    ensures CheckNotificationPreferences(Upsert(table, userId, Some(email), None), userId, false).emailEnabled == email
  {
  }
}

/** The two mail endpoints, server/api/blogSender.ts and
    server/api/emailSender.ts. Both consult the preferences first; the mail
    transport is an oracle flag `sendFails`. */
module Mailers {
  import opened Base
  import opened Preferences

  /** The fields of the request body the endpoints read. */
  datatype MailBody = MailBody(userId: string, userEmail: Option<string>, title: Option<string>, html: Option<string>)

  /** A mail handed to the transport. */
  datatype Mail = Mail(to: Option<string>, subject: string, html: Option<string>)

  datatype MailReply =
    | Disabled(recipient: Option<string>)              // success: false, preferences forbid it
    | Delivered(message: string, recipient: Option<string>)
    | HttpError(statusCode: int, message: string)

  /** The reply and the mail the handler tried to send, if any. */
  datatype Handled = Handled(reply: MailReply, attempted: Option<Mail>)

  /** The blog-post mail. */
  function BlogMail(body: MailBody): Mail {
    Mail(body.userEmail, "New Blog Post: " + JsText(body.title), body.html)
  }

  /** `blogSender`: the preference gate comes first, then the 400 for a
      missing address; a transport failure becomes a 500 naming the address. */
  function BlogSender(table: map<string, PrefRow>, prefsFailed: bool, body: MailBody, sendFails: bool): (h: Handled)
    ensures h.attempted.Some? <==>
      MailAllowed(CheckNotificationPreferences(table, body.userId, prefsFailed)) && Truthy(body.userEmail)
    ensures h.attempted.Some? ==> h.attempted.value == BlogMail(body)
    ensures !MailAllowed(CheckNotificationPreferences(table, body.userId, prefsFailed)) ==>
      h.reply == Disabled(body.userEmail)
    ensures MailAllowed(CheckNotificationPreferences(table, body.userId, prefsFailed)) && !Truthy(body.userEmail) ==>
      h.reply == HttpError(400, "User email is required")
    ensures h.attempted.Some? && sendFails ==>
      h.reply == HttpError(500, "Failed to send email to " + body.userEmail.value)
    ensures h.attempted.Some? && !sendFails ==>
      h.reply == Delivered("Email sent successfully", body.userEmail)
  {
    var prefs := CheckNotificationPreferences(table, body.userId, prefsFailed);
    if !MailAllowed(prefs) then Handled(Disabled(body.userEmail), None)
    else if !Truthy(body.userEmail) then Handled(HttpError(400, "User email is required"), None)
    else if sendFails then Handled(HttpError(500, "Failed to send email to " + body.userEmail.value), Some(BlogMail(body)))
    else Handled(Delivered("Email sent successfully", body.userEmail), Some(BlogMail(body)))
  }

  /** The report mail: its subject names the reporter's address. */
  function ReportMail(body: MailBody): Mail {
    Mail(body.userEmail, "Report Comment by " + JsText(body.userEmail), body.html)
  }

  /** `emailSender`: the same gate, but no check of the address. */
  function EmailSender(table: map<string, PrefRow>, prefsFailed: bool, body: MailBody, sendFails: bool): (h: Handled)
    ensures h.attempted.Some? <==> MailAllowed(CheckNotificationPreferences(table, body.userId, prefsFailed))
    ensures h.attempted.Some? ==> h.attempted.value == ReportMail(body)
    ensures h.attempted.None? ==> h.reply == Disabled(body.userEmail)
    ensures h.attempted.Some? ==>
      h.reply == (if sendFails then HttpError(500, "Failed to send email") else Delivered("Email sent successfully", None))
  {
    var prefs := CheckNotificationPreferences(table, body.userId, prefsFailed);
    if !MailAllowed(prefs) then Handled(Disabled(body.userEmail), None)
    else if sendFails then Handled(HttpError(500, "Failed to send email"), Some(ReportMail(body)))
    else Handled(Delivered("Email sent successfully", None), Some(ReportMail(body)))
  }

  /** A user who stored "off" for either switch is never mailed by either
      endpoint, whatever the body says. */
  lemma OptOutIsRespected(table: map<string, PrefRow>, body: MailBody, sendFails: bool)
    requires body.userId in table
    requires table[body.userId].emailEnabled == Some(false) || table[body.userId].pushEnabled == Some(false)
    ensures BlogSender(table, false, body, sendFails).attempted.None?
    ensures EmailSender(table, false, body, sendFails).attempted.None?
  {
  }

  /** With no stored preferences, a blog mail goes out exactly when the body
      carries an address. */
  lemma NoPreferencesMeansMail(table: map<string, PrefRow>, body: MailBody, sendFails: bool)
    requires body.userId !in table
    ensures BlogSender(table, false, body, sendFails).attempted.Some? <==> Truthy(body.userEmail)
  {
  }
}

/** The push and e-mail preference endpoints under
    server/api/notifications/. Each needs a signed-in user (`session`); every
    failure inside the handler, a missing user included, is answered with a
    500. */
module PushEndpoints {
  import opened Base
  import opened Preferences

  /** A `push_subscriptions` row; `endpoint`, `p256dh` and `auth` are
      NOT NULL columns. */
  datatype Subscription = Subscription(userId: string, endpoint: string, p256dh: string, auth: string)

  /** The body of a subscribe request: a `PushSubscription`, whose `keys`
      may be missing. */
  datatype Keys = Keys(p256dh: Option<string>, auth: Option<string>)
  datatype SubscribeBody = SubscribeBody(endpoint: Option<string>, keys: Option<Keys>)

  /** The body carries every column the insert needs; otherwise the insert
      of a null into a NOT NULL column is refused. */
  predicate Complete(body: SubscribeBody) {
    body.endpoint.Some? && body.keys.Some? && body.keys.value.p256dh.Some? && body.keys.value.auth.Some?
  }

  /** The two tables these endpoints touch. */
  datatype Db = Db(prefs: map<string, PrefRow>, subs: seq<Subscription>)

  datatype PushReply =
    | EmailUpdated(enabled: Option<bool>)
    | Subscribed(subscription: Subscription)
    | Unsubscribed
    | HttpError(statusCode: int, message: string)

  datatype Served = Served(db: Db, reply: PushReply)

  /** `POST /api/notifications/email`. */
  function EmailPreference(db: Db, session: Option<string>, enabled: Option<bool>, upsertFailed: bool): (s: Served)
    ensures session.None? || upsertFailed ==>
      s == Served(db, HttpError(500, "Failed to update email preferences"))
    ensures session.Some? && !upsertFailed ==>
      s.reply == EmailUpdated(enabled) && s.db.subs == db.subs &&
      s.db.prefs == Upsert(db.prefs, session.value, enabled, None)
  {
    if session.None? || upsertFailed then Served(db, HttpError(500, "Failed to update email preferences"))
    else Served(db.(prefs := Upsert(db.prefs, session.value, enabled, None)), EmailUpdated(enabled))
  }

  /** `POST /api/notifications/push/subscribe`. Reading `keys.p256dh` of a
      body without keys throws before the insert, and a missing endpoint or
      key makes the insert fail on a NOT NULL column; either way the reply is
      a 500. The follow-up upsert of `push_enabled: true` is awaited but its
      error is ignored (`pushUpsertFailed`). */
  function Subscribe(db: Db, session: Option<string>, body: SubscribeBody, insertFailed: bool, pushUpsertFailed: bool)
    : (s: Served)
    ensures session.None? || !Complete(body) || insertFailed ==>
      s == Served(db, HttpError(500, "Failed to save push subscription"))
    ensures s.reply.Subscribed? ==>
      && session.Some? && Complete(body) && !insertFailed
      && s.reply.subscription == Subscription(session.value, body.endpoint.value, body.keys.value.p256dh.value, body.keys.value.auth.value)
      && s.db.subs == db.subs + [s.reply.subscription]
      && s.db.prefs == (if pushUpsertFailed then db.prefs else Upsert(db.prefs, session.value, None, Some(true)))
    ensures session.Some? && Complete(body) && !insertFailed ==> s.reply.Subscribed?
  {
    if session.None? || !Complete(body) || insertFailed then Served(db, HttpError(500, "Failed to save push subscription"))
    else
      var row := Subscription(session.value, body.endpoint.value, body.keys.value.p256dh.value, body.keys.value.auth.value);
      var prefs := if pushUpsertFailed then db.prefs else Upsert(db.prefs, session.value, None, Some(true));
      Served(Db(prefs, db.subs + [row]), Subscribed(row))
  }

  /** `.match({ user_id, endpoint })`; a request without an endpoint
      matches no stored row. */
  predicate Matches(sub: Subscription, userId: string, endpoint: Option<string>) {
    sub.userId == userId && endpoint == Some(sub.endpoint)
  }

  predicate OwnedBy(sub: Subscription, userId: string) {
    sub.userId == userId
  }

  /** The user's subscriptions. */
  function Remaining(subs: seq<Subscription>, userId: string): (r: seq<Subscription>)
    ensures forall i :: 0 <= i < |r| ==> r[i] in subs && r[i].userId == userId
    ensures |r| == 0 <==> forall i :: 0 <= i < |subs| ==> subs[i].userId != userId
  {
    var owned := (x: Subscription) => OwnedBy(x, userId);
    assert (forall i :: 0 <= i < |subs| ==> subs[i].userId != userId) ==> Filter(subs, owned) == [] by {
      if forall i :: 0 <= i < |subs| ==> subs[i].userId != userId {
        FilterDropsAll(subs, owned);
      }
    }
    Filter(subs, owned)
  }

  /** `POST /api/notifications/push/unsubscribe`. The delete of the user's
      subscriptions to `endpoint` happens first; if counting what remains
      then fails, the delete stays done but the reply is a 500. With none
      remaining, `push_enabled` is switched off (the upsert's error is
      ignored). */
  function Unsubscribe(db: Db, session: Option<string>, endpoint: Option<string>,
                       deleteFailed: bool, countFailed: bool, pushUpsertFailed: bool): (s: Served)
    ensures session.None? || deleteFailed ==>
      s == Served(db, HttpError(500, "Failed to unsubscribe from push notifications"))
    ensures session.Some? && !deleteFailed ==>
      (forall i :: 0 <= i < |s.db.subs| ==> s.db.subs[i] in db.subs && !Matches(s.db.subs[i], session.value, endpoint)) &&
      (forall i :: 0 <= i < |db.subs| && !Matches(db.subs[i], session.value, endpoint) ==> db.subs[i] in s.db.subs)
    ensures session.Some? && !deleteFailed && countFailed ==>
      s.reply == HttpError(500, "Failed to unsubscribe from push notifications") && s.db.prefs == db.prefs
    ensures session.Some? && !deleteFailed && !countFailed ==>
      s.reply == Unsubscribed &&
      s.db.prefs == (if |Remaining(s.db.subs, session.value)| == 0 && !pushUpsertFailed
                     then Upsert(db.prefs, session.value, None, Some(false)) else db.prefs)
  {
    if session.None? || deleteFailed then Served(db, HttpError(500, "Failed to unsubscribe from push notifications"))
    else
      var user := session.value;
      var subs := Filter(db.subs, (x: Subscription) => !Matches(x, user, endpoint));
      if countFailed then Served(db.(subs := subs), HttpError(500, "Failed to unsubscribe from push notifications"))
      else
        var prefs := if |Remaining(subs, user)| == 0 && !pushUpsertFailed
                     then Upsert(db.prefs, user, None, Some(false)) else db.prefs;
        Served(Db(prefs, subs), Unsubscribed)
  }

  /** A user without subscriptions who subscribes and then unsubscribes the
      same endpoint is back where they started: the subscription table is as
      before, and push notifications are off. */
  lemma SubscribeThenUnsubscribe(db: Db, user: string, body: SubscribeBody)
    requires Complete(body)
    requires forall i :: 0 <= i < |db.subs| ==> db.subs[i].userId != user
    ensures var s1 := Subscribe(db, Some(user), body, false, false);
            var s2 := Unsubscribe(s1.db, Some(user), body.endpoint, false, false, false);
            s2.reply == Unsubscribed && s2.db.subs == db.subs &&
            CheckNotificationPreferences(s2.db.prefs, user, false).pushEnabled == false
  {
    var s1 := Subscribe(db, Some(user), body, false, false);
    var p := (x: Subscription) => !Matches(x, user, body.endpoint);
    FilterKeepsAll(db.subs, p);
    FilterConcat(db.subs, [s1.reply.subscription], p);
    assert Filter([s1.reply.subscription], p) == [];
    var rest := Filter(s1.db.subs, p);
    assert rest == db.subs;
  }

  /** Unsubscribing leaves every other user's subscriptions alone. */
  lemma UnsubscribeKeepsOthers(db: Db, user: string, endpoint: Option<string>, other: string,
                               countFailed: bool, pushUpsertFailed: bool)
    requires other != user
    ensures var s := Unsubscribe(db, Some(user), endpoint, false, countFailed, pushUpsertFailed);
            Remaining(s.db.subs, other) == Remaining(db.subs, other)
  {
    var p := (x: Subscription) => !Matches(x, user, endpoint);
    var q := (x: Subscription) => OwnedBy(x, other);
    var both := (x: Subscription) => OwnedBy(x, other);
    FilterTwice(db.subs, p, q, both);
  }
}
