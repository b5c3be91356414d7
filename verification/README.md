# mijublog core, modelled in Dafny

This project models the sequential logic inside mijublog, a Nuxt blog backed by a hosted Postgres service. The modelled parts are:

- the client-side notification list and its realtime reducer;
- the daily digest batch and the cron callback that builds it;
- feed filtering, paging and load-more guards;
- the in-memory comment tree;
- post slugs and per-tag category counts, and the reading-list update record;
- the sitemap entry mapping and the route predicates;
- notification preferences and the mail and push endpoints;
- the like and follow toggles;
- the small UI state records.

Database tables become values: sequences where order matters, maps keyed by the unique column, and sets of pairs for relation tables. Every remote call is an input to the model. It appears as a failure flag, a reply datatype, or an oracle indexed by attempt number (`nat -> SendOutcome`). Remote procedures are recorded as calls (`Toggles.Rpc`); their effect on counters is not modelled. HTML templates are an opaque `render` function. JavaScript semantics that matter are written out:

- a template literal prints `undefined` for a missing value (`Base.JsText`);
- a string is truthy when it is present and non-empty (`Base.Truthy`);
- `null + 1` is `1` (`PostManagement.PostLength`);
- `new Error(err)` of an `Error` carries `"Error: " + message`.

Modules:

- `Base`: `Option`, `Result`, order-preserving `Filter`, first-match `Find`, ASCII lower-casing, the `\s` class, `replace(/\s+/g, "-")` (`Hyphenate`), `slice` and `includes`.
- `Records`: the user, post and reading-list rows.
- `Authors`, `Notifications`, `Digest`, `Paging`, `BlogPagination`, `Lists`, `BlogPosts`, `CommentTree`, `Slug`, `PostManagement`, `UpdatingList`, `Sitemap`, `Routes`, `Preferences`, `Mailers`, `PushEndpoints`, `NotificationState`, `AuthState`, `Toggles`: one per component of the application.

Where the code and its description differ, the model follows the code:

- `followAuthor` inserts the follow row only when its lookup query fails, because an empty result array is truthy.
- `likeReplies` never decrements for an empty user id.
- `addComment` looks the parent up after storing the new comment, so a parent id equal to the new id appends the comment to its own replies.
- A successful `fetchPosts` keeps an earlier error.
- The sitemap answers 500 when the posts query returns null data without an error.
- Every failure inside the push and e-mail preference endpoints, the 401 for a missing user included, is answered with a 500.

## Model

| member | source | states |
|---|---|---|
| Authors.FindPostAuthor | utils/findPostAuthor.ts:3-5 | the result is the first user with that id, undefined exactly when no user has it |
| Authors.GetAuthorDetails | lib/getAuthorDetails.ts:12-14 | the same first-match lookup |
| Authors.AssetsGetAuthorDetails | assets/lib/getAuthorDetails.ts:3-5 | the same first-match lookup |
| Authors.UserById | utils/findPostAuthor.ts:4 | `users.find(u => u.id === authorId)` meets the lookup contract |
| Authors.LookupUnique | lib/getAuthorDetails.ts:13 | any two results meeting the lookup contract are equal, so the three copies agree |
| Authors.LookupCons | utils/findPostAuthor.ts:4 | a matching user in front is found first; a non-matching one changes nothing |
| Notifications.ApplyChange | composables/useNotifications.ts:212-230 | INSERT prepends only rows addressed to the current user; UPDATE replaces rows with the same id, keeping length, ids and order; DELETE leaves `WithoutId` of the list, the rows with another id in their order; other events and a missing old id change nothing |
| Notifications.WithoutId | composables/useNotifications.ts:155-157 | the kept rows are exactly those with another id, and they plus the removed ones account for the whole list |
| Notifications.ReplaceById | composables/useNotifications.ts:222-224 | length and ids are preserved |
| Notifications.InsertThenDelete | composables/useNotifications.ts:213-228 | an INSERT of a new row followed by its DELETE restores the list |
| Notifications.UpdateIdempotent | composables/useNotifications.ts:221-224 | a repeated UPDATE changes nothing more |
| Notifications.WithoutIdConcat | composables/useNotifications.ts:226-227 | removal by id keeps the relative order of the rest |
| Notifications.ChangePreservesOwnership | composables/useNotifications.ts:213-228 | a list of the user's own rows stays so under INSERT, DELETE and an UPDATE with an own row |
| Notifications.ClearNotification | composables/useNotifications.ts:143-159 | on error nothing changes and null is returned; otherwise table and list both become `WithoutId` of themselves, the other rows in their order, and true is returned |
| Notifications.ClearAllNotifications | composables/useNotifications.ts:161-177 | on error nothing changes; otherwise exactly the rows sent to or by the user leave the table and the list is emptied |
| Notifications.ClearAllIdempotent | composables/useNotifications.ts:161-176 | a second clear-all leaves table and list as the first one did |
| Notifications.MarkAllNotificationAsRead | composables/useNotifications.ts:179-200 | on error nothing changes; otherwise every local entry reads "read" with all else kept, only the rows sent to or by the user change in the table, and exactly those rows come back, marked read and in table order |
| Notifications.MarkAllReadIdempotent | composables/useNotifications.ts:194-197 | marking twice leaves the same list as once |
| Notifications.FollowNotification | composables/useNotifications.ts:108-130 | on error nothing changes and null is returned; otherwise the row addressed to the author, sent by the user, of type "follow" with the follow message, is stored and put first in the list |
| Notifications.FollowEntryAddressedToAuthor | composables/useNotifications.ts:110-128 | the row a follow puts first in the follower's own list is not addressed to the follower |
| Notifications.OnUserChange | composables/useNotifications.ts:245-252 | sign-out empties the list; sign-in sets it to exactly the table's rows addressed to the user, in table order, or keeps it when the fetch fails |
| Notifications.ApplyAllPreservesOwnership | composables/useNotifications.ts:212-230 | any run of realtime changes whose updates carry own rows keeps a list of own rows so |
| Notifications.SignInThenChanges | composables/useNotifications.ts:212-252 | after a sign-in loads the list, realtime changes keep it a list of the user's own notifications |
| Notifications.WithoutIdTwice | composables/useNotifications.ts:155-157 | removing an id twice is removing it once |
| Notifications.ClearAgreesWithRealtimeDelete | composables/useNotifications.ts:155-157 | a clear leaves the list the realtime DELETE of that id would, and the echoed DELETE changes nothing more |
| Notifications.FollowThenClear | composables/useNotifications.ts:108-159 | clearing the row a follow created, under an unused id, restores table and list |
| Digest.ResultFor | server/app/dailyHighlight.ts:10-25 | the result names the task's recipient, succeeds exactly when the send did not throw, and carries the error text otherwise |
| Digest.Summarize | server/app/dailyHighlight.ts:9-35 | one result per task in task order, and the two counts add up to the number of tasks |
| Digest.DailyHighlight | server/app/dailyHighlight.ts:9-35 | the loop attempts every task in order whatever failed before, and returns the reference summary with counts by filtering |
| Digest.EmptyDigest | server/app/dailyHighlight.ts:9-35 | no tasks give 0, 0 and no results |
| Digest.OneFailingResult | server/app/dailyHighlight.ts:31-33 | a result list whose only failure is one entry counts one success fewer than entries |
| Digest.OneFailure | server/app/dailyHighlight.ts:18-35 | exactly one failing send among N gives N-1 successes and 1 failure |
| Digest.BuildTasks | server/cron/scheduler/dailyHightlightScheduler.ts:23-27 | one task per user in user order, with the user's e-mail, the first post's title in the subject and the rendered page |
| Digest.RunTick | server/cron/scheduler/dailyHightlightScheduler.ts:12-32 | a failed fetch is caught; no posts or no users send nothing; otherwise the built tasks are all attempted |
| Digest.TickAddressesEveryUser | server/cron/scheduler/dailyHightlightScheduler.ts:23-29 | with posts and users, each user gets one result and the shared subject |
| Paging.Visible | composables/useBlogPagination.ts:19-21 | the prefix of length min(page·5, size) |
| Paging.LoadMore | composables/useBlogPagination.ts:23-31 | the page advances by exactly one, through a scrolling state, iff items remain hidden, and the view then grows |
| Paging.LoadsRevealAll | composables/useBlogPagination.ts:23-31 | enough load-more calls show every item |
| Paging.LoadsRevealAllIdle | composables/useLists.ts:32 | once everything is shown, load-more changes nothing |
| BlogPagination.FilteredBlogs | composables/useBlogPagination.ts:11-17 | every kept post is public, its lower-cased title contains the query, and it carries the category if one is chosen; every such post is kept |
| BlogPagination.FilteredBlogsOnePass | composables/useBlogPagination.ts:12-16 | the two filters are one order-preserving filter on all three conditions |
| BlogPagination.FilteredBlogsConcat | composables/useBlogPagination.ts:11-17 | filtering distributes over concatenation, so order is kept |
| BlogPagination.EmptySearchShowsAllPublic | composables/useBlogPagination.ts:14-16 | an empty query and no category hide only private posts |
| BlogPagination.PaginatedBlogs | composables/useBlogPagination.ts:19-21 | the prefix of the filtered posts of length min(page·5, size) |
| BlogPagination.FirstViewAtMostFive | composables/useBlogPagination.ts:4-5 | the first view shows at most five posts |
| BlogPagination.LoadMoreBlogs | composables/useBlogPagination.ts:23-31 | advances one page iff page·5 is below the number of filtered posts |
| Lists.LoadMoreListItems | composables/useLists.ts:31-39 | no change when page·5 reaches the saved posts; otherwise scrolling, then the next page |
| Lists.GetListsBySlug | composables/useLists.ts:23-29 | a query error is thrown; otherwise the first row with that slug, or null exactly when none has it |
| Lists.FirstOfFilter | composables/useLists.ts:28 | the head of a filter is the first matching element |
| BlogPosts.FetchPosts | composables/useBlogPosts.ts:11-26 | loading always ends; a rejection is stored and nothing else changes; null results become empty lists |
| BlogPosts.FindPostAuthor | composables/useBlogPosts.ts:28-30 | the first-match lookup over the fetched users |
| BlogPosts.FilterPostsByStatus | composables/useBlogPosts.ts:32-36 | exactly the author's posts with that status, in fetched order |
| BlogPosts.FilterPostsByStatusConcat | composables/useBlogPosts.ts:32-36 | selecting from two halves of the posts gives the two selections in sequence |
| BlogPosts.FetchFeedsSelectors | composables/useBlogPosts.ts:11-36 | after a fetch the author lookup runs over the fetched users and the selection over the fetched posts; a rejected fetch changes neither |
| BlogPosts.StatusesPartition | composables/useBlogPosts.ts:32-36 | an author's "draft" and "posted" selections share no post |
| CommentTree.AddComment | composables/useComment.ts:16-38 | the new comment is stored under the returned id; without a truthy parent it heads the roots; with a stored parent it ends the parent's replies; nothing else changes |
| CommentTree.AddPreservesClosed | composables/useComment.ts:26-35 | every root and reply id keeps naming a stored comment |
| CommentTree.OrphanReply | composables/useComment.ts:29-32 | a reply to a missing parent is stored but reachable from nowhere |
| CommentTree.InitialTree | composables/useComment.ts:41-75 | comments 1, 2 and 3 chained by replies, root list [1], all ids stored |
| Base.Hyphenate | composables/usePostManagement.ts:39 | the result has no whitespace and is no longer than the input |
| Base.HyphenateScan | composables/usePostManagement.ts:39 | a left-to-right scan that collapses whitespace runs computes the same string |
| Base.HyphenateSnoc | composables/usePostManagement.ts:39 | how one more character extends the result, by whether it is whitespace and whether a run is open |
| Base.HyphenateIdempotent | composables/usePostManagement.ts:39 | replacing twice is replacing once |
| Base.FilterRewritten | server/list/updatingList.ts:6-11 | filtering after rewriting the selected rows, by a rewrite that keeps them selected, gives the rewritten selection in order |
| Base.ContainsIff | composables/useBlogPagination.ts:14 | `includes` holds iff some window of the text equals the query |
| Slug.Slugify | composables/usePostManagement.ts:39 | no whitespace, no longer than the input |
| Slug.HyphenateKeepsLowered | composables/usePostManagement.ts:39 | replacing whitespace runs by hyphens keeps a lower-case string in lower case |
| Slug.SlugifyLowered | composables/usePostManagement.ts:39 | a slug is in lower case |
| Slug.SlugifyIdempotent | server/list/updatingList.ts:8 | the slug of a slug is itself |
| PostManagement.PostSlug | composables/usePostManagement.ts:16 | the full slug when it has at most 100 characters, otherwise its first 100; never whitespace |
| PostManagement.PostSlugIdempotent | composables/usePostManagement.ts:16 | a post slug is its own post slug |
| PostManagement.SaveWithStatus | composables/usePostManagement.ts:11-35 | no user throws before the insert; an insert error is rethrown; otherwise the save succeeds, the row with the post slug and the user as author is stored, and the editor redirect happens iff rows came back |
| PostManagement.SavePost | composables/usePostManagement.ts:11-35 | the stored post has status "drafted" and the user as author |
| PostManagement.SavedPostInNoTab | composables/usePostManagement.ts:22 | a post saved this way is in neither the "draft" nor the "posted" selection |
| PostManagement.SavePostAsDraft | composables/usePostManagement.ts:11-35 | the same save with the status "draft" |
| PostManagement.SavedDraftListed | composables/useBlogPosts.ts:32-36 | a post saved as "draft" is among its author's drafts |
| PostManagement.TagStep | composables/usePostManagement.ts:38-65 | an existing category gets its count plus one, null reading 0; a missing one is created with count 1 and its id becomes `categories_id`; other categories stay |
| PostManagement.TagLoop | composables/usePostManagement.ts:38-66 | categories not named by a tag stay, none disappears, and `categories_id` keeps its value or holds an id created in the loop |
| PostManagement.ManageTags | composables/usePostManagement.ts:37-66 | the same, for `manageTags` over the whole tag list |
| PostManagement.TagLoopSnoc | composables/usePostManagement.ts:38-66 | one more tag is one more step after the others |
| PostManagement.TagLoopCounts | composables/usePostManagement.ts:38-66 | when all calls succeed, each slug's count rises by the number of tags with that slug, starting from 0 if absent |
| PostManagement.ManageTagsCounts | composables/usePostManagement.ts:37-66 | the same for the whole call |
| PostManagement.LastNewTagSetsId | composables/usePostManagement.ts:62-64 | when the last tag creates its category, `categories_id` ends as its id |
| PostManagement.NoCreationKeepsId | composables/usePostManagement.ts:62-64 | when no tag creates a category, `categories_id` is untouched |
| UpdatingList.UpdateRecord | server/list/updatingList.ts:6-11 | a null name gives "" for name and slug, otherwise its slug; a null description gives ""; status is passed through |
| UpdatingList.UpdatingListCall | server/list/updatingList.ts:3-19 | on error the table is unchanged and null returned; otherwise the rows of that user with that id are rewritten, all others kept, and the returned rows are exactly the rewritten ones, in table order |
| UpdatingList.UpdatingListIdempotent | server/list/updatingList.ts:6-11 | the same update twice leaves the table as once |
| UpdatingList.UpdatedSlugMatchesName | server/list/updatingList.ts:7-8 | the stored slug is the slug of the stored name and is its own slug |
| Sitemap.BaseUrl | server/api/sitemap/urls.ts:35 | the configured URL when truthy, else "http://localhost:3000"; never empty |
| Sitemap.LastMod | server/api/sitemap/urls.ts:46 | `updated_at` when truthy, else `publish_date` |
| Sitemap.SitemapUrls | server/api/sitemap/urls.ts:4-56 | a failed posts query gives no entries; null data, or posts without a user listing, give 500; any other data gives entries, one daily, priority-1.0 entry per post in order |
| Sitemap.LocShape | server/api/sitemap/urls.ts:43 | an address starts with the base and "/post/@" and ends with the post id |
| Sitemap.SameAuthorLocs | server/api/sitemap/urls.ts:40-43 | two posts of one author share an address iff their ids are equal |
| Sitemap.KnownAuthorLoc | server/api/sitemap/urls.ts:40-43 | a listed author's username appears in the address |
| Routes.IsPublicRoute | utils/auth.ts:1-5 | true exactly for "/", "/signin" and "/signup" |
| Routes.IsAuthRoute | utils/auth.ts:7-9 | true exactly for "/signin" and "/signup" |
| Routes.AuthRoutesArePublic | utils/auth.ts:1-9 | sign-in routes are public; "/" is the only public route that is not one |
| Routes.NoPrefixMatch | utils/auth.ts:4 | a sign-in route with anything appended is not public; only "/" extends to another public route |
| Preferences.CheckNotificationPreferences | utils/checkNotificationPreferences.ts:3-18 | a switch reads false iff the query worked and the user's stored value is false; missing rows and nulls read true |
| Preferences.Upsert | server/api/notifications/email.post.ts:16-24 | the user's row is created if missing; only the given columns change; other users' rows stay |
| Preferences.UpsertThenCheck | server/api/notifications/email.post.ts:16-24 | a written e-mail switch reads back as written |
| Mailers.BlogSender | server/api/blogSender.ts:4-42 | a mail is attempted iff both switches are on and an address is present; the preference gate comes before the 400; the subject names the title; a transport failure gives a 500 naming the address |
| Mailers.EmailSender | server/api/emailSender.ts:4-30 | a mail is attempted iff both switches are on, with no address check; the subject names the reporter; a transport failure gives a 500 |
| Mailers.OptOutIsRespected | server/api/blogSender.ts:8-14 | a stored "off" for either switch stops both endpoints from mailing |
| Mailers.NoPreferencesMeansMail | server/api/blogSender.ts:6-21 | without stored preferences a blog mail goes out iff the body has an address |
| PushEndpoints.EmailPreference | server/api/notifications/email.post.ts:3-36 | no user or an upsert error gives 500 with nothing changed; otherwise the session user's e-mail switch is upserted and echoed |
| PushEndpoints.Subscribe | server/api/notifications/push/subscribe.post.ts:4-48 | no user, a body without keys, a missing endpoint or key (refused by the NOT NULL columns) or an insert error gives 500 with nothing changed; otherwise the row is stored and push is switched on unless that upsert fails, which is ignored |
| PushEndpoints.Remaining | server/api/notifications/push/unsubscribe.post.ts:24-27 | the user's subscriptions, empty iff the user has none |
| PushEndpoints.Unsubscribe | server/api/notifications/push/unsubscribe.post.ts:3-52 | no user or a delete error gives 500 with nothing changed; otherwise exactly the user's rows for that endpoint go; a count error then gives 500; with none left push is switched off |
| PushEndpoints.SubscribeThenUnsubscribe | server/api/notifications/push/unsubscribe.post.ts:16-42 | subscribing and unsubscribing one endpoint restores the table and leaves push off |
| PushEndpoints.UnsubscribeKeepsOthers | server/api/notifications/push/unsubscribe.post.ts:16-19 | other users' subscriptions are untouched |
| NotificationState.Initial | composables/useNotificationState.ts:10-14 | everything starts off |
| NotificationState.SetLoading | composables/useNotificationState.ts:16-18 | only `isLoading` changes |
| NotificationState.UpdateEmailState | composables/useNotificationState.ts:20-22 | only `email` changes |
| NotificationState.UpdatePushState | composables/useNotificationState.ts:24-26 | only `push` changes |
| NotificationState.SettersCommute | composables/useNotificationState.ts:16-26 | setters of different fields commute; a later write of a field wins |
| AuthState.IsAuthenticated | composables/useAuthState.ts:6 | true iff there is a user |
| AuthState.Initial | composables/useAuthState.ts:4-8 | not loading, no error, authenticated iff there is a user |
| AuthState.SetLoading | composables/useAuthState.ts:10-12 | only `isLoading` changes |
| AuthState.SetError | composables/useAuthState.ts:14-16 | only `error` changes |
| AuthState.SettersKeepAuthentication | composables/useAuthState.ts:6-16 | no setter changes whether the user is signed in |
| Toggles.ToggleCall | server/post/likePost.ts:15-31 | one call with the given x, row and user, the undo procedure iff already recorded |
| Toggles.LikePost | server/post/likePost.ts:3-38 | "decrement" iff the lookup worked and found the like, else "increment"; an error is swallowed and null returned |
| Toggles.LikeComment | assets/server/comments/likeComment.ts:3-23 | the same decision; an error is rethrown as "Error: " followed by the message |
| Toggles.LikeReplies | assets/server/comments/likeReplies.ts:3-24 | decrements iff a like was found and the user id is truthy; an error settles to undefined |
| Toggles.RepliesAgreeWithComments | assets/server/comments/likeReplies.ts:8 | the reply toggle matches the comment toggle except for the empty user id |
| Toggles.GetCategoryFollowedBy | assets/server/categories/getCategoryFollowedBy.ts:3-15 | undefined iff the query fails; otherwise whether the user follows the category |
| Toggles.FollowCategory | assets/server/categories/followCategory.ts:4-40 | unfollows iff the lookup worked and found the user, follows otherwise; an error settles to undefined |
| Toggles.FollowCategoryTwiceRestores | assets/server/categories/followCategory.ts:7-36 | with both lookups answered, one toggle flips the user's follow and a second restores the relation |
| Toggles.FollowAuthor | server/user/followAuthor.ts:3-56 | the follow row is inserted only when the lookup fails; an insert error gives null with no call; every other path calls "increment_follower" for the author; a call error gives null, otherwise the data, with the insert result on the insert path |
| Toggles.FollowAuthorLosesNewFollower | server/user/followAuthor.ts:8-15 | a successful lookup of a new follower records no row, yet the count is incremented |
| Toggles.FollowAuthorIntended | server/user/followAuthor.ts:3-56 | the row is inserted when the lookup failed or found nothing |
| Toggles.FollowAuthorIntendedRecords | server/user/followAuthor.ts:15-29 | with that test, every call that reaches the count leaves the follower recorded |
| Toggles.InteractionKind | server/post/showMoreOrLess.ts:9 | "more" iff the type is "more", otherwise "less" |
| Toggles.ShowMoreOrLess | server/post/showMoreOrLess.ts:3-18 | on error nothing is stored and the result is undefined; otherwise one row with the given user and category is stored and the data or [] is returned |
| Toggles.InteractionsWellFormed | server/post/showMoreOrLess.ts:6-10 | every stored interaction is "more" or "less" |

## Findings

| source | as written | input that shows it | evidently intended | confidence | as-written member | corrected member |
|---|---|---|---|---|---|---|
| server/user/followAuthor.ts:15 | `if (!existingUser)` is true only when the lookup errors, because a successful lookup yields an array, which is truthy even when empty | a user not yet following the author; the lookup succeeds with no rows | insert the `user_info` row when no follow row was found | medium; not executed | Toggles.FollowAuthorLosesNewFollower | Toggles.FollowAuthorIntendedRecords |
| composables/usePostManagement.ts:22 | a new post is stored with status "drafted" | any successful save, then `filterPostsByStatus(author, 'draft')` (composables/useBlogPosts.ts:32) | store "draft", one of the two statuses the post list selects on | medium; not executed | PostManagement.SavedPostInNoTab | PostManagement.SavedDraftListed |

## Left out

- The preference helpers and push subscription calls at the top of composables/useNotifications.ts (lines 1-92), `unfollowNotification`, and the realtime channel set-up and teardown: these are I/O plumbing. The handler they register is modelled as `Notifications.ApplyChange`.
- Timing: the cron schedule and time zone, the one-second spacing between digest mails, the 1.5-second load-more delay, and `Promise.all`. Each is modelled as its sequential outcome: `Paging.LoadMore` lists the pager states in order.
- The `updated_at` timestamps the preference upserts write: they read the clock.
- Logging (`console.log`, `console.error`) and toasts: no observable state.
- Mail transport, push delivery and the HTML templates: sends are oracle outcomes, and pages come from an opaque `render` function.
- The remote counter procedures (`increment`, `decrement`, and the rest) and what they do to counters: only the call and its reply are modelled, so "liking twice restores the count" is not stated.
- The `post_categories` insert at the end of `manageTags`: it writes the category id as the post id and is not part of the model.
- `toLowerCase` beyond ASCII and `slice` over UTF-16 code units: strings are sequences of characters.
- The `string[]` form of the slug accepted by `getListsBySlug`: only a single slug is modelled.
- Database column defaults for columns an upsert leaves unset: an unset column is null in the model, which the preference reader treats as "on".
- The service's sort by `publish_date` in the sitemap query: the reply is taken as already ordered.
- PostManagement.TagStep: a failed category lookup, which sends an existing slug to the insert branch, is not modelled. The table is keyed by slug, so it cannot hold the second row such an insert would add.
- Toggles.CategoryFollowersAfter: the two category procedures are not part of this model. Their effect on the follower relation is taken from their names, and `Toggles.FollowCategoryTwiceRestores` rests on it.
- `.single()` failing on several matching rows: the category and preference tables are maps keyed by the unique column, so at most one row matches.
- PostManagement.ManageTags: states which ids `categories_id` may end with, not that it is the last one created; `PostManagement.LastNewTagSetsId` and `PostManagement.NoCreationKeepsId` state the two ends.
- Digest.RunTick: does not model a rejection of `useGetBlogPost()`, which catches its own errors and yields an empty list.
- Mailers.BlogSender: the body's `userId` is a string; a request without one is not modelled.
