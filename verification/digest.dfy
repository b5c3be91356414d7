/** The daily digest: the cron callback of
    server/cron/scheduler/dailyHightlightScheduler.ts builds one email task per
    user, and `dailyHighlight` of server/app/dailyHighlight.ts sends them one
    after another, recording a result per task. The outcome of the k-th send
    attempt is an oracle `outcome(k)`; the HTML template is an opaque
    `render` function. */
module Digest {
  import opened Base
  import opened Records

  /** `EmailOptions`: `user_email` may be undefined when the user has no
      `user_metadata.email`. */
  datatype EmailTask = EmailTask(userEmail: Option<string>, subject: string, html: string)

  /** What a failed send throws: an `Error` (its message is reported) or any
      other value (its `String(...)` form is reported). */
  datatype Thrown = ErrorObject(message: string) | OtherValue(text: string)

  datatype SendOutcome = Sent | Threw(thrown: Thrown)

  /** `EmailResult`. */
  datatype EmailResult = EmailResult(success: bool, recipient: Option<string>, error: Option<string>)

  /** `EmailSummary`. */
  datatype Summary = Summary(successful: nat, failed: nat, results: seq<EmailResult>)

  /** `error instanceof Error ? error.message : String(error)`. */
  function ErrorText(t: Thrown): string {
    match t
    case ErrorObject(m) => m
    case OtherValue(v) => v
  }

  /** The entry pushed for one task. */
  function ResultFor(task: EmailTask, outcome: SendOutcome): (r: EmailResult)
    ensures r.recipient == task.userEmail
    ensures r.success <==> outcome.Sent?
    ensures r.success ==> r.error.None?
    ensures outcome.Threw? ==> r.error == Some(ErrorText(outcome.thrown))
  {
    match outcome
    case Sent => EmailResult(true, task.userEmail, None)
    case Threw(t) => EmailResult(false, task.userEmail, Some(ErrorText(t)))
  }

  predicate Succeeded(r: EmailResult) { r.success }
  predicate FailedResult(r: EmailResult) { !r.success }

  /** The summary `dailyHighlight` returns, stated as a reference
      definition: one result per task, counts by filtering. */
  function Summarize(tasks: seq<EmailTask>, outcome: nat -> SendOutcome): (s: Summary)
    ensures |s.results| == |tasks|
    ensures forall i :: 0 <= i < |tasks| ==> s.results[i] == ResultFor(tasks[i], outcome(i))
    ensures s.successful + s.failed == |tasks|
  {
    var results := seq(|tasks|, i requires 0 <= i < |tasks| => ResultFor(tasks[i], outcome(i)));
    FilterPartition(results, Succeeded, FailedResult);
    Summary(|Filter(results, Succeeded)|, |Filter(results, FailedResult)|, results)
  }

  /** `dailyHighlight(emailTasks)`: the sequential send loop. Every task is
      attempted, in order, whatever happened to the ones before it. */
  method DailyHighlight(tasks: seq<EmailTask>, outcome: nat -> SendOutcome)
    returns (summary: Summary, attempted: seq<EmailTask>)
    ensures attempted == tasks
    ensures summary == Summarize(tasks, outcome)
    ensures |summary.results| == |tasks|
    ensures forall i :: 0 <= i < |tasks| ==>
      summary.results[i].recipient == tasks[i].userEmail &&
      (summary.results[i].success <==> outcome(i).Sent?)
    ensures summary.successful == |Filter(summary.results, Succeeded)|
    ensures summary.failed == |Filter(summary.results, FailedResult)|
    ensures summary.successful + summary.failed == |tasks|
  {
    var results: seq<EmailResult> := [];
    attempted := [];
    var i := 0;
    while i < |tasks|
      invariant 0 <= i <= |tasks|
      invariant attempted == tasks[..i]
      invariant |results| == i
      invariant forall k :: 0 <= k < i ==> results[k] == ResultFor(tasks[k], outcome(k))
    {
      attempted := attempted + [tasks[i]];
      match outcome(i) {
        case Sent =>
          results := results + [EmailResult(true, tasks[i].userEmail, None)];
        case Threw(t) =>
          results := results + [EmailResult(false, tasks[i].userEmail, Some(ErrorText(t)))];
      }
      i := i + 1;
    }
    assert tasks[..i] == tasks;
    summary := Summary(|Filter(results, Succeeded)|, |Filter(results, FailedResult)|, results);
    assert results == Summarize(tasks, outcome).results;
  }

  /** No tasks: nothing is sent and the summary is 0, 0 and no results. */
  lemma EmptyDigest(outcome: nat -> SendOutcome)
    ensures Summarize([], outcome) == Summary(0, 0, [])
  {
  }

  /** A result list in which only the k-th entry failed has one success
      fewer than entries. */
  lemma {:induction false} OneFailingResult(rs: seq<EmailResult>, k: nat)
    requires k < |rs| && !rs[k].success
    requires forall i :: 0 <= i < |rs| && i != k ==> rs[i].success
    ensures |Filter(rs, Succeeded)| == |rs| - 1
  {
    assert rs == rs[..k] + [rs[k]] + rs[k + 1..];
    FilterConcat(rs[..k] + [rs[k]], rs[k + 1..], Succeeded);
    FilterConcat(rs[..k], [rs[k]], Succeeded);
    FilterKeepsAll(rs[..k], Succeeded);
    FilterKeepsAll(rs[k + 1..], Succeeded);
    assert Filter([rs[k]], Succeeded) == [];
  }

  /** N recipients of which exactly the k-th send fails: N - 1 successes,
      1 failure, N results. */
  lemma OneFailure(tasks: seq<EmailTask>, outcome: nat -> SendOutcome, k: nat)
    requires k < |tasks|
    requires outcome(k).Threw?
    requires forall i: nat :: i < |tasks| && i != k ==> outcome(i).Sent?
    ensures var s := Summarize(tasks, outcome);
            s.successful == |tasks| - 1 && s.failed == 1 && |s.results| == |tasks|
  {
    var s := Summarize(tasks, outcome);
    OneFailingResult(s.results, k);
  }

  // ---------------------------------------------------------------------------
  // The cron callback

  /** `getAllUser()` either rejects or yields the user list (`userList || []`);
      `useGetBlogPost()` never rejects (it returns [] on any error). */
  datatype UsersReply = UsersFailed(message: string) | Users(list: seq<User>)

  /** How one tick of the cron callback ends. */
  datatype Tick =
    | NothingToSend               // "No blog posts or users found"
    | FetchFailed(message: string)  // caught and logged, not rethrown
    | Delivered(summary: Summary, attempted: seq<EmailTask>)

  /** `users.map(user => ({ user_email, subject, html }))`. */
  function BuildTasks(posts: seq<Post>, users: seq<User>, render: (seq<Post>, User) -> string): (tasks: seq<EmailTask>)
    requires |posts| > 0
    ensures |tasks| == |users|
    ensures forall i :: 0 <= i < |users| ==>
      tasks[i].userEmail == users[i].email &&
      tasks[i].subject == "Daily Highlight: " + posts[0].title &&
      tasks[i].html == render(posts, users[i])
  {
    seq(|users|, i requires 0 <= i < |users| =>
      EmailTask(users[i].email, "Daily Highlight: " + posts[0].title, render(posts, users[i])))
  }

  /** One run of the cron callback. */
  function RunTick(posts: seq<Post>, users: UsersReply, render: (seq<Post>, User) -> string,
                   outcome: nat -> SendOutcome): (t: Tick)
    ensures users.UsersFailed? ==> t == FetchFailed(users.message)
    ensures users.Users? && (|posts| == 0 || |users.list| == 0) ==> t == NothingToSend
    ensures t.Delivered? ==>
      users.Users? && |posts| > 0 && |users.list| > 0 &&
      t.attempted == BuildTasks(posts, users.list, render) &&
      t.summary == Summarize(t.attempted, outcome) &&
      |t.summary.results| == |users.list|
  {
    match users
    case UsersFailed(m) => FetchFailed(m)
    case Users(list) =>
      if |posts| == 0 || |list| == 0 then NothingToSend
      else
        var tasks := BuildTasks(posts, list, render);
        Delivered(Summarize(tasks, outcome), tasks)
  }

  /** Every digest mail of a tick goes to the user at the same position, and
      all of them carry the first post's title in the subject. */
  lemma TickAddressesEveryUser(posts: seq<Post>, users: seq<User>, render: (seq<Post>, User) -> string,
                               outcome: nat -> SendOutcome)
    requires |posts| > 0 && |users| > 0
    ensures var t := RunTick(posts, Users(users), render, outcome);
            t.Delivered? &&
            forall i :: 0 <= i < |users| ==>
              t.summary.results[i].recipient == users[i].email &&
              t.attempted[i].subject == "Daily Highlight: " + posts[0].title
  {
  }
}
