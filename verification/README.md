# Not-following-back service, modelled in Dafny

The service answers one request, `POST /api/followers` with a body
`{ cookies, username }`. It reports the accounts that `username` follows but
that do not follow it back. The handler works in four steps:

1. It validates the two fields.
2. It resolves the username to an account id through the upstream client.
3. It drains two cursor-paginated relations, followers first and then
   following. Each drain starts with a null `maxId`, appends each page's
   `users`, and passes the page's `next_max_id` to the next fetch. It stops
   after the first page whose cursor is falsy.
4. It keeps the following usernames that are absent from the set of follower
   usernames.

Modules:

- `Outcomes`: the `Option` and `Result` datatypes.
- `Pagination`: cursors, pages, upstream replies and the drain loop
  `GetAllUsers`.
- `Reconcile`: the follower set and the order-preserving filter
  `NotFollowingBack`.
- `Validation`: the 400 checks, with a matcher for `^[a-zA-Z0-9_.]+$`.
- `Server`: the handler `HandleFollowers`. It returns the HTTP answer and the
  log of upstream calls made, in order.

The upstream endpoint is modelled as the finite sequence of replies it gives.
The i-th fetch receives the i-th reply. Each reply is either a page or a
failure, and a failure stands for the awaited call throwing. The id lookup is
modelled as a given `Result`. The cursor a fetch sends is recorded, but the
reply does not depend on it: how the upstream uses the cursor is its own
business.

Facts about the code that the model keeps:

- The drain has no bound on the number of fetches. A drain whose upstream
  never returns a falsy cursor loops forever. The model adds no bound and
  no extra error. Instead, each drain the handler starts requires that its
  reply sequence contains a reply that ends it (`Terminates`; see Left out).
- The report is a filtered list, not a set. It keeps the order and the
  duplicates of the following list.
- Validation happens inside the handler, before any upstream call.

## Model

| member | source | states |
|---|---|---|
| Pagination.Falsy | index.js:30-32 | The loop's exit test: a cursor keeps the loop going exactly when it is a non-empty token. Null, undefined and "" all end it. |
| Pagination.StopIndex | index.js:27-32 | Finds the reply that ends the loop: an upstream failure, or a page whose `next_max_id` is null, undefined or "". Every earlier reply is a page with a truthy cursor. |
| Pagination.GetAllUsers | index.js:23-35 | Makes exactly StopIndex+1 fetches. The first sends the null cursor. Each later fetch sends the previous page's `next_max_id`. On success the result is the in-order concatenation of the fetched pages' users. If the ending reply is a failure, the result is that failure with no partial list. |
| Pagination.ConcatAppend | index.js:29 | Accumulating page by page is concatenation: the users of two runs of pages are the users of the first run followed by those of the second. |
| Pagination.Concat | index.js:24-29 | The accumulator after appending each page's users in turn. Every user on one of the pages is collected, and no user that is on none of them. |
| Pagination.CursorsSent | index.js:25-30 | The `maxId` values sent, one per fetch: StopIndex+1 of them, null first, then the previous page's `next_max_id` each time. Every cursor after the first is truthy. |
| Pagination.StopIgnoresLaterReplies | index.js:27-32 | Replies after the ending one never influence the drain. Appending any replies after the first StopIndex+1 leaves the stop index unchanged. |
| Pagination.StopsAtFirstEnd | index.js:28-32 | If the first k replies continue the loop and reply k ends it (a falsy cursor, or a failure after k good pages), the drain stops at index k and makes exactly k+1 fetches. |
| Reconcile.UsernameSet | index.js:70-72 | The follower-name set holds a name exactly when some user in the list has it. |
| Reconcile.Usernames | index.js:73 | The username list has one entry per user, in the same order, and holds exactly the names of the corresponding set. |
| Reconcile.Without | index.js:76-78 | The filter keeps a name exactly when it is not excluded. It is an order-preserving subsequence of the input. Each kept name occurs as often as in the input, and each excluded name does not occur. |
| Reconcile.WithoutIsUnique | index.js:76-78 | Any order-preserving subsequence with those multiplicities equals the filter, so the contract of `Without` fixes the result. |
| Reconcile.NotFollowingBack | index.js:70-78 | A name is reported exactly when some followed account has it and no follower has it, by exact case-sensitive equality. The report is a subsequence of the following usernames and keeps their duplicates. |
| Reconcile.NoFollowersReportsAll | index.js:70-78 | With no followers, the report is the full following-username list, in order. |
| Reconcile.DisjointReportsAll | index.js:70-78 | When no followed username is a follower username, the report is the full following-username list, in order. |
| Reconcile.AllFollowBackReportsNone | index.js:70-78 | When every followed username is also a follower username, the report is empty. |
| Reconcile.NoFollowingReportsNone | index.js:73-78 | Following nobody gives an empty report. |
| Reconcile.ExampleReport | index.js:70-78 | Followers a, b and following b, c, d report c, d. |
| Reconcile.CaseSensitiveExample | index.js:76-78 | A follower "alice" does not cancel a followed "Alice". |
| Validation.Truthy | index.js:42 | A field fails the presence test exactly when it is absent or the empty string. |
| Validation.MatchesHandlePattern | index.js:49 | The anchored pattern `^[a-zA-Z0-9_.]+$` matches exactly the non-empty strings whose every character is an ASCII letter, a digit, `_` or `.`. |
| Validation.Validate | index.js:42-52 | Accepts exactly when both fields are present and non-empty, cookies have at most 1000 characters, the username has at most 30, and every username character is in the class. A missing or empty field gives the "required" rejection. Any other failed check gives the "invalid format" rejection. |
| Validation.LengthBoundsAreInclusive | index.js:47-48 | Cookies of 1000 characters and a 30-character username are accepted. One character more in either is rejected as invalid format. |
| Validation.RejectsForeignCharacter | index.js:49 | Usernames containing `-` or `@` are rejected as invalid format. |
| Validation.AcceptsHandleCharacters | index.js:49 | Upper- and lower-case letters, digits, `_` and `.` are accepted. |
| Server.DrainAndReport | index.js:62-78 | Only the drains that actually start must terminate. The followers are drained first, and the following only if that drain succeeded. The call log is exactly those fetches with their cursors. A report exists exactly when both drains succeed, and it is the not-following-back list of the two drained user lists. |
| Server.HandleFollowers | index.js:38-85 | Only the drains the handler actually starts must terminate. A rejected request gets 400 with the matching message and makes no upstream call. A valid request first looks up the username. A failed lookup gives 500 and fetches no page. Next the followers are drained, and the following only if that drain succeeded. The answer is 200 exactly when every step succeeded, with the report computed from both drained lists. Any upstream failure gives 500 with the generic message and no partial report. |
| Server.ReportMembership | index.js:62-78 | End to end: a username is reported exactly when it appears on a fetched page of the following drain and on no fetched page of the followers drain. |
| Server.ReportedIffOnPages | index.js:62-78 | The same statement for any lists of fetched pages, stated through `Concat`. |

## Left out

- Express setup, CORS, helmet, JSON body parsing, the per-IP rate limiter and
  `app.listen` (index.js:1-20, 87-90): framework plumbing with no logic of its
  own. The limiter's 429 answer is therefore not modelled.
- The `insta-fetcher` client (`new igApi`, `getIdByUsername`, `getFollowers`,
  `getFollowing`) is not part of this model. Its calls are replaced by given
  data: the lookup result and the two reply sequences. Constructing the client
  from the cookies is not modelled as a call.
- The 2000 ms pause (index.js:31): timing only, with no effect on the result.
  After every fetch that returns a page, including the one that ends the
  drain, the loop waits 2000 ms; its comment says 1 second. A fetch that
  throws leaves the drain before the pause.
- Console logging (index.js:61-67, 82): output only.
- Exception handling is modelled only as the `Failed` reply and the failed id
  lookup, both mapped to 500. The error message is not echoed, as in the code.
- Pagination.GetAllUsers: requires its reply sequence to contain a reply that
  ends the drain. The source loops forever when the upstream never returns a
  falsy cursor, and that behaviour is not modelled. `Server.DrainAndReport`
  and `Server.HandleFollowers` carry the same requirement, but only for the
  drains they actually start.
- JavaScript typing quirks are not modelled. Non-string `cookies` or
  `username` values are out of scope, and so is a numeric `next_max_id`.
  `.length` counts characters of a Dafny `string`, not UTF-16 code units.
  Every page is assumed to carry a `users` array; `concat` of a missing
  `users` field would append `undefined` in JavaScript.
