# Notification store and helpers of the ticket front-end, in Dafny

This project models the client-side logic of a ticket-management web front-end.
Everything else in that front-end is rendering over a remote HTTP API.

- **The full notification store** (`lib/store/useNotificationStore.js`). It holds a
  list of notification records plus `loading` and `error` flags. Its operations are
  fetch, push-insert, mark one read, mark all read, delete one, clear all, reset and
  rehydrate.
- **The reduced notification store** (`lib/store.js`). It holds the list only, with
  fetch and mark-read. The notification bell and the ticket form use this one.
- **The notification bell** (`components/NotificationCenter.js`). It derives the
  unread count and the badge, works out the ticket identifier a notification points
  at, and decides what a click does.
- **The ticket form** (`components/TicketForm.js`). It covers the initial record,
  single-field edits, the assignee list without the current user, and the submit
  sequence.
- **The admin users page** (`app/admin/users/page.js`). It builds the ordered query
  from four optional filters, classifies priorities case-insensitively, shows
  defaults for missing fields, and tracks the loading flag.

Every call to the server is a parameter of the transition that awaits it. The
parameter is `Results.Outcome`: `Ok(value)`, or `Err(message)` carrying the thrown
error's message. Each transition is one atomic step taken after the request has
settled. Mark, delete and clear are remote-first: on `Err` they return the state
unchanged.

The two stores are independent state machines. `Stores.Step` routes each operation
to its own store and leaves the other store as it was.

Modules:
- `Results`: `Option` and `Outcome`.
- `Seqs`: count, order-preserving filter, subsequence and reverse, with their lemmas.
- `Notifications`: the records and the list operations both stores share.
- `FullStore`, `ReducedStore` and `Stores`.
- `NotificationCenter`, `TicketForm` and `AdminUsers`.

Behaviour worth noting:
- A confirmed `markAsRead(id)` flags *every* entry with that `_id`. Pushes are not
  de-duplicated, so the list can hold several such entries.
- A successful `fetchNotifications` leaves an error from an earlier failure in place.
  Only `rehydrate` and `reset` clear it.
- `rehydrate` does not raise `loading`. A failed rehydrate leaves the state
  untouched: it does not record the error.
- `reset` is meant for logout, but no page calls it. Logging out only clears the
  stored credentials.

## Model

| member | source | states |
|---|---|---|
| Notifications.UnreadCount | components/NotificationCenter.js:19 | the unread count is at most the list length, and is zero exactly when every entry is read |
| Notifications.UnreadCountAppend | components/NotificationCenter.js:19 | the count of a concatenation is the sum of the counts of its parts |
| Notifications.UnreadCountSingle | components/NotificationCenter.js:19 | a single entry counts one exactly when it is unread, so with `UnreadCountAppend` the badge number is the number of unread entries |
| Notifications.MarkRead | lib/store/useNotificationStore.js:33-35 | same length and order; an entry's read flag becomes true exactly when it was read or carries the id; every entry keeps all its other fields |
| Notifications.MarkAll | lib/store/useNotificationStore.js:47 | same length and order; every entry is read and keeps all its other fields |
| Notifications.RemoveId | lib/store/useNotificationStore.js:62 | no remaining entry has the id; every entry with another id stays, in its original relative order; the length drops by the number of entries with the id |
| Notifications.MarkReadIdempotent | lib/store/useNotificationStore.js:33-35 | marking the same id twice equals marking it once |
| Notifications.MarkReadCommutes | lib/store/useNotificationStore.js:33-35 | confirmed marks for two ids give the same list in either order |
| Notifications.MarkAllIdempotent | lib/store/useNotificationStore.js:47 | mark-all applied twice equals mark-all applied once |
| Notifications.MarkAllAbsorbsMarkRead | lib/store/useNotificationStore.js:43-48 | a single mark followed by mark-all is the same as mark-all alone |
| Notifications.UnreadAfterMarkAll | lib/store/useNotificationStore.js:47 | after mark-all the unread count is zero |
| Notifications.UnreadAfterMarkRead | lib/store/useNotificationStore.js:33-35 | after marking an id, the unread count equals the unread count of the entries with other ids, so it never grows |
| Notifications.RemoveIdUnique | lib/store/useNotificationStore.js:62 | any order-preserving selection without the id that keeps as many entries as there are other-id entries is the deletion result |
| FullStore.FetchBegin | lib/store/useNotificationStore.js:13 | a fetch first raises `loading` and changes nothing else |
| FullStore.FetchEnd | lib/store/useNotificationStore.js:14-19 | once the request settles, `loading` is false; on success the list is the server's and the error is untouched; on failure the old list stays and the message is recorded |
| FullStore.Fetch | lib/store/useNotificationStore.js:12-20 | the whole fetch: ends not loading; success replaces the list without clearing an earlier error; failure keeps the list and records the message |
| FullStore.Add | lib/store/useNotificationStore.js:23-26 | a pushed notification becomes the head, the tail is the previous list, the length grows by exactly one and the flags are unchanged |
| FullStore.MarkAsRead | lib/store/useNotificationStore.js:29-40 | on failure the state is unchanged; on success the entries with the id become read, all other entries, the length and the flags are kept |
| FullStore.MarkAllAsRead | lib/store/useNotificationStore.js:43-52 | on failure the state is unchanged; on success every entry is read, otherwise unchanged, in the same order |
| FullStore.Reset | lib/store/useNotificationStore.js:55 | from any state: empty list, not loading, no error |
| FullStore.Delete | lib/store/useNotificationStore.js:58-67 | on failure the state is unchanged; on success no entry with the id remains, every other entry remains in its relative order, the length drops by the number of entries with the id, and the flags are kept |
| FullStore.ClearAll | lib/store/useNotificationStore.js:70-77 | on failure the state is unchanged; on success the list is empty and the flags are kept |
| FullStore.Rehydrate | lib/store/useNotificationStore.js:80-91 | without a non-empty stored token and user it does nothing; a failed request changes nothing; a successful one replaces the list and clears both `loading` and `error` |
| FullStore.PushesPrepend | lib/store/useNotificationStore.js:23-26 | any run of pushes puts the pushed notifications newest-first in front of the old list; the length grows by the number of pushes, with no de-duplication |
| FullStore.FetchThenPushOrder | lib/store/useNotificationStore.js:12-26 | a fetch returning [n1] followed by a push of n2 yields [n2, n1] |
| FullStore.MarkAllAsReadIdempotent | lib/store/useNotificationStore.js:43-52 | a confirmed mark-all applied twice equals applying it once |
| FullStore.ResetIsInitial | lib/store/useNotificationStore.js:55 | reset yields the store's initial state whatever the prior state |
| FullStore.LoadingSettles | lib/store/useNotificationStore.js:12-91 | from a state that is not loading, no run of operations leaves the store loading |
| FullStore.RehydrateIsFetchClearingError | lib/store/useNotificationStore.js:80-91 | with a non-empty token and user, a successful rehydrate equals a successful fetch with the error cleared |
| FullStore.RehydrateFailureIsSilent | lib/store/useNotificationStore.js:85-90 | a failed rehydrate leaves the state unchanged, whereas a failed fetch records the message |
| FullStore.UnreadCountMonotone | lib/store/useNotificationStore.js:23-77 | mark, mark-all, delete, clear and reset never raise the unread count; a push raises it by at most one |
| FullStore.RemoveShrinksUnread | lib/store/useNotificationStore.js:62 | deleting entries never raises the unread count |
| ReducedStore.Fetch | lib/store.js:7-14 | success replaces the list wholesale with the server data; failure leaves the list unchanged |
| ReducedStore.MarkAsRead | lib/store.js:16-27 | on failure unchanged; on success exactly the entries with the id become read and all others, the length and the order are kept |
| ReducedStore.UnreadNeverGrowsWithoutFetch | lib/store.js:16-27 | any series of mark-as-read outcomes keeps the length and never raises the unread count |
| ReducedStore.MarkSeqReads | lib/store.js:16-27 | after a series of mark outcomes an entry is read exactly when it was read before or some confirmed request named its id; every entry keeps all its other fields and the length is kept |
| Stores.Step | lib/store.js:4-28 | an operation on one store leaves the other store unchanged; the full store is the separate store created at lib/store/useNotificationStore.js:6-9 |
| Stores.StepsCommute | lib/store.js:4-28 | operations on the two stores give the same result in either order |
| Stores.InitialIsEmpty | lib/store.js:5 | both stores start with an empty list, and the full store starts neither loading nor failed, as lib/store/useNotificationStore.js:6-9 sets it up |
| Stores.MarkAsReadAgreesWithFullStore | lib/store.js:16-23 | on the same list, a confirmed mark in the reduced store changes the list exactly as in the full store |
| Stores.FetchAgreesWithFullStore | lib/store.js:7-14 | on the same outcome, a fetch gives the reduced store the same list as the full store |
| NotificationCenter.BadgeShown | components/NotificationCenter.js:29 | the badge is shown exactly when some entry is unread |
| NotificationCenter.TicketIdAsWritten | components/NotificationCenter.js:52 | the identifier expression throws exactly on a `null` reference; a populated reference gives the embedded `_id`, a bare one gives itself |
| NotificationCenter.NullTicketThrows | components/NotificationCenter.js:52 | a notification whose ticket is `null` makes the expression throw |
| NotificationCenter.TicketId | components/NotificationCenter.js:52 | the embedded ticket's `_id` for a populated reference, the bare value for a bare one, nothing when missing or `null` |
| NotificationCenter.TicketIdAgrees | components/NotificationCenter.js:52 | the corrected identifier equals the component's wherever the component does not throw, which is every input except `null` |
| NotificationCenter.Click | components/NotificationCenter.js:57-62 | a click always requests mark-as-read of the notification's id; it navigates, to `/tickets/<id>`, exactly when the ticket id is present and non-empty; a `null` reference marks without navigating, the corrected reading, since the component as written throws rendering that row |
| NotificationCenter.ClickOnStore | components/NotificationCenter.js:57-62 | with the settled request: on failure the store is unchanged; on success the entries with the clicked id become read, every other entry is unchanged, the length is kept and the unread count does not grow |
| NotificationCenter.NoBadgeAfterMarkAll | components/NotificationCenter.js:19 | the unread count and badge predicate of the bell, applied to the full store's list after a confirmed mark-all, give zero and no badge; the bell itself reads the reduced store, which has no mark-all |
| NotificationCenter.ClickEach | components/NotificationCenter.js:57-58 | clicking each listed notification once requests, in list order, a mark of each one's id |
| NotificationCenter.NoBadgeAfterClickingEach | components/NotificationCenter.js:19-62 | once every listed notification has been clicked and every mark succeeded, the bell shows no badge |
| TicketForm.InitialFields | components/TicketForm.js:11-17 | the form starts with exactly five fields: empty title, description and assignee, priority "medium", category "general" |
| TicketForm.HandleChange | components/TicketForm.js:41-44 | the named field takes the value; every other field keeps its value; only that name can be added; the error is cleared |
| TicketForm.HandleChangeLastWins | components/TicketForm.js:43 | of two edits to the same field, the later wins |
| TicketForm.HandleChangeCommutes | components/TicketForm.js:43 | edits to different fields commute |
| TicketForm.HandleChangeKeepsShape | components/TicketForm.js:43 | editing one of the five fields keeps the same set of fields |
| TicketForm.ExcludeCurrentUser | components/TicketForm.js:32 | no remaining user has the current user's id; every other user stays, every occurrence of it, in the original order |
| TicketForm.ExcludeWithoutSessionDropsIdless | components/TicketForm.js:24-32 | with no stored user, fetched users that lack an `_id` are dropped too |
| TicketForm.ExcludeCurrentUserIdempotent | components/TicketForm.js:32 | filtering the assignee list again changes nothing |
| TicketForm.ExcludeCurrentUserUnique | components/TicketForm.js:32 | the assignee list is the only order-preserving selection of the other users that keeps every one of them |
| TicketForm.LoadUsers | components/TicketForm.js:29-37 | a failed users request changes nothing; a successful one lists exactly the fetched users other than the current one, in order |
| TicketForm.SubmitBegin | components/TicketForm.js:48-49 | a submit first clears the error and raises `loading` |
| TicketForm.Submit | components/TicketForm.js:46-78 | posts the current fields; success resets the form to its defaults, refreshes the reduced store and goes to `/main`; failure shows the message and keeps the fields and the store; `loading` always ends false |
| TicketForm.SubmitResetsForm | components/TicketForm.js:61-67 | a successful submit leaves the form as freshly mounted, apart from the fetched users |
| AdminUsers.QueryParams | app/admin/users/page.js:18-22 | only non-empty filters appear, each with its own value, in the fixed order role, priority, assignedAfter, resolvedBefore; every non-empty filter appears |
| AdminUsers.QueryParamsRoundTrip | app/admin/users/page.js:18-22 | reading the filters back out of the query gives the original filters |
| AdminUsers.QueryParamsSize | app/admin/users/page.js:18-22 | the query has one pair per non-empty filter; with all filters empty it is empty |
| AdminUsers.ClassifyCaseInsensitive | app/admin/users/page.js:184-191 | a priority is high, medium or low exactly when it equals that word ignoring case; missing, empty or other values are neutral |
| AdminUsers.ClassifyIgnoresUpperCase | app/admin/users/page.js:184-191 | ASCII upper-casing a priority never changes its class |
| AdminUsers.PriorityText | app/admin/users/page.js:193 | a missing or empty priority shows as "N/A"; any other value shows as given |
| AdminUsers.CountText | app/admin/users/page.js:197 | a missing count shows as 0; a present count shows as itself |
| AdminUsers.RenderRow | app/admin/users/page.js:171-202 | a row shows the user's name, email and role, the classified priority and its text, and each count as given or 0 when missing |
| AdminUsers.ClassifiedPriorityShownAsGiven | app/admin/users/page.js:184-193 | a priority with a coloured badge is shown as given; a priority shown as "N/A" is neutral |
| AdminUsers.FetchUsers | app/admin/users/page.js:14-37 | `loading` is false after the fetch whatever its outcome; success replaces the users; failure keeps them |
| AdminUsers.PageSettles | app/admin/users/page.js:14-41 | after any non-empty series of fetches the page is not loading, and when the last fetch succeeded its users are listed |
| AdminUsers.PageKeepsLastSuccess | app/admin/users/page.js:14-37 | after any series of fetches the page lists the users of the last successful fetch, or the users it had before when every fetch failed |
| AdminUsers.InitialPageLoads | app/admin/users/page.js:6-37 | the page mounts loading with no users, and its first fetch ends loading whatever its outcome |

## Left out

- The ticket push handlers are not modelled. They route created, updated and deleted tickets into the "raised" and "assigned" lists. None of the front-end's source files contains that code.
- No source file calls `addNotification`, so a pushed notification appears only as `FullStore.Add`. The only socket in the source belongs to the single-ticket page. It refreshes or leaves that page when its ticket is updated or deleted, and that page is not part of this model.
- `lib/api.js` and every `fetch` are HTTP plumbing. Each request appears only as its settled `Outcome`.
- Races are not modelled. An in-flight fetch can resolve after a push or a reset and overwrite it. Each transition here is one atomic step.
- Local storage, `JSON.parse`, timers, router navigation and toasts are environment effects:
  - the stored token, the stored user and the current user's `_id` are `Option` inputs;
  - navigation appears only as the target path.
- A malformed stored user makes `JSON.parse` throw while the form renders. That failure is not modelled.
- TicketForm.Submit: assumes the caller's `onCreated` callback does not throw. If it threw, the thrown message would become the form error. The created ticket body is only used for a toast, so it is not modelled.
- AdminUsers.FetchUsers: the page stores every parsed response body without checking the HTTP status or the body's shape. `Ok` carries only a list of users. A non-array body, such as an error object with a `message` field, is not modelled: the page would store it, clear `loading`, and then throw while rendering the table, because the object has no `map`.
- URL encoding and `params.toString()` are library behaviour. So is date formatting. Only the ordered key/value list is modelled.
- AdminUsers.ClassifyCaseInsensitive: `toLowerCase` is modelled on ASCII letters only. The classification is unaffected: no non-ASCII character lowercases to a single ASCII letter of "high", "medium" or "low". The one that lowercases to an `i`, U+0130, yields two characters, `i` followed by U+0307, so the text cannot equal any of the three words.
- AdminUsers.ClassifyIgnoresUpperCase: covers ASCII upper-casing only. JavaScript's `toUpperCase` maps "ı" (U+0131) to "I", so "hıgh" is neutral while its upper-cased form "HIGH" is high.
- AdminUsers.CountText: counts are `Option<int>`. JavaScript `||` would also map `NaN` and other falsy values to 0.
- JavaScript's dynamic typing is not modelled: a non-boolean `read` flag, a non-string ticket reference or priority. Each field has one type here.
- Pure markup, colour tables and role-gated links and redirects have no behaviour to state. This covers the remaining pages, `components/TicketList.js`, `components/Navbar.js`, `components/Authguard.js` and the login and register pages.
- The login page calls `rehydrate` before it stores the new token. Logging out removes the stored token and user, so that call does nothing on a first login and on every login after a logout. This caller-side ordering is outside the store and is not modelled.

## Findings

| source | as written | input that shows it | evidently intended | confidence | as-written member | corrected member |
|---|---|---|---|---|---|---|
| components/NotificationCenter.js:52 | `typeof n.ticket === "object"` also holds for `null`, so `n.ticket._id` is read from `null` and the bell's render throws; line 68 reads `n.ticket.title` under the same test (`NotificationCenter.NullTicketThrows`) | a notification whose `ticket` field is `null`, e.g. one whose ticket no longer exists on the server | a `null` reference is treated like a missing one: no ticket id and no navigation | not executed; the throw follows from JavaScript semantics, but whether the server ever sends `null` is not visible here | NotificationCenter.TicketIdAsWritten | NotificationCenter.TicketId |
