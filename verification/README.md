# Webhook capture engine — Dafny model

This project models the backend core of a webhook-inspection service. A user
mints disposable capture links ("inboxes") keyed by an 8-character short code.
Each link lives for 30 days. The capture handler behind
`/api/webhooks/receive/:linkId` records every request that reaches it, of any
method, in that link's request log when the link is present and not expired.
An unknown code gets 404 and an expired link gets 410, and neither records
anything. Requests that the middleware answers first never reach the handler
(see "Left out").

The model has two layers:

- `MemoryStorage` (memory_storage.dfy) models the in-memory store. It holds a
  map from short code to link, the insertion order of that map (a JavaScript
  `Map` iterates in insertion order), and a map from short code to request log.
  Each store method is a pure function from the old store to its result and
  the new store.
- `WebhookRoutes` (webhook_routes.dfy) models the Express handlers. Each one
  is a function from (store, clock reading, generated UUIDs, request parts)
  to (HTTP response, new store). `Route` binds the seven endpoints together.

The supporting modules are:

- `WebhookModel`: the `WebhookLink` and `WebhookRequest` records, with dates
  as integer milliseconds, and the strict expiry test `expiresAt < now`.
- `StableSort`: the stable descending sort that `Array.prototype.sort` does
  with a `b - a` comparator.
- `InsertionOrder`: the key order of a JavaScript `Map`.
- `ApiProperties`: properties that span several calls.

Time is an integer millisecond parameter. `uuidv4()` results are parameters.
Headers, query and body are opaque values.

## Model

| member | source | states |
|---|---|---|
| StableSort.SortDesc | backend/src/storage/memory.storage.ts:37-38 | the sorted log is a permutation of the stored log (same multiset, same length) and its timestamps never increase |
| StableSort.SortDescIsStable | backend/src/storage/memory.storage.ts:19-20 | the sort is stable: entries with equal keys keep their original relative order |
| StableSort.SortDescIdempotent | backend/src/storage/memory.storage.ts:36-39 | re-sorting an already sorted log changes nothing, so repeated in-place sorts agree |
| StableSort.SortDescOfAscending | backend/src/storage/memory.storage.ts:37-38 | entries captured with strictly increasing timestamps are listed in exactly the reverse order |
| MemoryStorage.EmptyIsValid | backend/src/storage/memory.storage.ts:3-5 | the fresh store has no links and no logs and satisfies the store invariant |
| WebhookRoutes.EmptyIsApiValid | backend/src/storage/memory.storage.ts:3-5 | the fresh store also satisfies the handlers' invariant that `Route` requires, so every store the API reaches keeps it |
| MemoryStorage.CreateLink | backend/src/storage/memory.storage.ts:8-12 | afterwards the code maps to the link and to an empty log; any earlier link and log under that code are replaced; other keys are unchanged; a new code goes last in insertion order; the invariant is kept |
| MemoryStorage.GetLink | backend/src/storage/memory.storage.ts:14-16 | found exactly when the code is a link key, returning the stored link (whose own `linkId` is that code), whatever its expiry |
| MemoryStorage.GetAllLinks | backend/src/storage/memory.storage.ts:18-21 | every stored link exactly once (same count, same elements), `createdAt` non-increasing, ties in insertion order |
| MemoryStorage.DeleteLink | backend/src/storage/memory.storage.ts:23-26 | returns true iff the code was a link key; afterwards neither map holds the code; every other key and value is unchanged |
| MemoryStorage.AddRequest | backend/src/storage/memory.storage.ts:29-34 | the request's log grows by one with the request at the tail and the earlier entries in order; an absent log starts empty; links and other logs are unchanged |
| MemoryStorage.GetRequests | backend/src/storage/memory.storage.ts:36-39 | returns a stable, timestamp-descending permutation of the log; a stored log is replaced by that order, because the sort is in place; an absent log gives an empty result and no change |
| MemoryStorage.ClearRequests | backend/src/storage/memory.storage.ts:41-43 | the code maps to an empty log, even if it had no log or link; links and other logs are unchanged |
| MemoryStorage.SweepFrom | backend/src/storage/memory.storage.ts:50-55 | deleting the expired links one at a time in visit order equals removing the set of expired visited keys from both maps and the order at once; the count is that set's size |
| MemoryStorage.CleanupExpiredLinks | backend/src/storage/memory.storage.ts:46-58 | a link survives iff `expiresAt >= now` (strict `<` removes); removed links take their logs with them; the rest are untouched; the result is the number of links removed |
| WebhookRoutes.PostLinks | backend/src/routes/webhook.routes.ts:9-24 | status 200 with a link created now, expiring exactly 2 592 000 000 ms later, active, with 8 lower-case hex characters of short code; stored with an empty log; other keys untouched; a new code goes last in insertion order and a taken code keeps its place |
| WebhookRoutes.GetLinks | backend/src/routes/webhook.routes.ts:27-31 | sweeps first: the listing is exactly the stored links with `expiresAt >= now`, newest first, ties in the survivors' insertion order; the store loses exactly the expired links and their logs, every surviving link and log keeps its value, and the key order drops only the expired codes |
| WebhookRoutes.GetLinkById | backend/src/routes/webhook.routes.ts:34-47 | 404 iff the code is absent, with error "Link not found"; 410 iff present and `expiresAt < now`, with error "Link expired"; 200 with the stored link otherwise; never changes the store |
| WebhookRoutes.DeleteLinkById | backend/src/routes/webhook.routes.ts:50-59 | 404 with error "Link not found" iff no link was there, else 200 with message "Link deleted successfully"; afterwards the link and its log are gone, the insertion order drops only that code, and every other link and log is unchanged |
| WebhookRoutes.GetLinkRequests | backend/src/routes/webhook.routes.ts:62-72 | 404 with error "Link not found" iff the link is absent and 200 iff it is present, with no expiry check; on 200 a stable newest-first permutation of its log, left sorted in the store; links, insertion order and other logs are unchanged |
| WebhookRoutes.ClearLinkRequests | backend/src/routes/webhook.routes.ts:75-85 | 404 with error "Link not found" iff the link is absent (no change) and 200 with message "Requests cleared successfully" iff it is present, with no expiry check; on 200 its log is empty, the other logs are unchanged, and the link stays as it was |
| WebhookRoutes.HandleWebhook | backend/src/routes/webhook.routes.ts:88-116 | 404 iff absent, with error "Webhook link not found"; 410 iff expired, with error "Webhook link expired"; neither changes the store; on 200 exactly one entry is appended, carrying the returned request id, the path's code, the method unchanged, headers, body, query, capture time and client address |
| WebhookRoutes.Route | backend/src/routes/webhook.routes.ts:9-118 | every handler answers 200, 404 or 410; a 410 changes nothing; no endpoint leaves a request log without its link or holding another link's request |
| ApiProperties.LinkLifetime | backend/src/routes/webhook.routes.ts:12-98 | a link created at T answers 200 to lookup and to capture at any time up to and including T + 30 days, and 410 to both after it |
| ApiProperties.LazyExpiry | backend/src/routes/webhook.routes.ts:27-47 | an expired but unswept link answers 410 to lookup and capture; after a listing at the same time it answers 404 to lookup, capture, request listing, clear and delete, and its log is gone |
| ApiProperties.ExpiredStillListsAndClears | backend/src/routes/webhook.routes.ts:62-85 | an expired but unswept link still answers 200 to request listing (its whole log) and to clear (its log emptied, the link kept) |
| ApiProperties.ListRequestsTwice | backend/src/storage/memory.storage.ts:36-39 | listing a log twice gives the same answer, and the second listing leaves the store unchanged |
| ApiProperties.CaptureAllAppends | backend/src/routes/webhook.routes.ts:88-118 | N captures to a live link, with any methods, each get 200 with their own id and append exactly N entries in capture order |
| ApiProperties.CapturedNewestFirst | backend/src/routes/webhook.routes.ts:62-72 | captures with increasing timestamps into an empty log are listed in reverse capture order |
| ApiProperties.ClearKeepsLink | backend/src/routes/webhook.routes.ts:75-85 | after a clear the link answers lookups as before, and the next capture becomes the only entry of its log |
| ApiProperties.DeleteThenNotFound | backend/src/routes/webhook.routes.ts:50-59 | after a delete, lookup, listing, clear, capture and a second delete all answer 404, and capture leaves the store unchanged |
| ApiProperties.CreateFreshOrOverwrite | backend/src/storage/memory.storage.ts:8-12 | a new short code adds one link and keeps all others; a taken code keeps the key set and empties that code's log |

## Behaviour of the code worth noting

- Expiry is strict `expiresAt < now` in the sweep, the lookup and the capture
  (backend/src/storage/memory.storage.ts:51, backend/src/routes/webhook.routes.ts:42 and :96). A link whose
  `expiresAt` equals the current time is still live (`LinkLifetime`).
- Short codes are not checked for collisions. `createLink` overwrites the
  link under an existing code and empties its log (backend/src/storage/memory.storage.ts:9-10,
  `CreateFreshOrOverwrite`).
- Listing a log reorders it. `getRequests` sorts the stored array in place
  (backend/src/storage/memory.storage.ts:37-38), so after a listing the log is held newest first.
  Later captures are still appended at the tail (`GetRequests`,
  `ListRequestsTwice`).
- Request listing and clearing do not test expiry (backend/src/routes/webhook.routes.ts:62-85).
  An expired link that no listing has swept yet still lists and clears its
  log (`ExpiredStillListsAndClears`).
- `DELETE /links/:linkId` removes the log under the code even when no link is
  there. `deleteLink` deletes the log before it tests for the link
  (backend/src/storage/memory.storage.ts:24-25).
- The capture route is `/receive/:linkId` only (backend/src/routes/webhook.routes.ts:118). It
  matches no deeper subpaths.

## Left out

- HTTP routing, Express middleware, body parsing (JSON, urlencoded, the 10 MB
  raw parser), JSON and ISO-8601 serialisation, CORS, `listen`, and the root
  and health endpoints of backend/src/index.ts. These are library plumbing. Each
  handler takes the path parameter and the parsed request parts as arguments.
- Answers the middleware gives before any handler runs (backend/src/index.ts:13-16).
  `cors()` with its defaults answers every OPTIONS request itself with 204.
  The body parsers answer 400 to malformed JSON or a top-level JSON value
  that is not an object or array, and 413 to JSON or
  urlencoded bodies over their 100 kB default and to raw bodies over 10 MB.
  Such requests are not recorded, even for a live link. The handler statuses
  200, 404 and 410 are those of requests that get through.
- The frontend. It is a UI client of the HTTP interface.
- `uuidv4()` and `new Date()`. They become parameters. `handleWebhook` reads
  the clock twice, so it gets two parameters: `checkNow` for the expiry test
  and `captureTime` for the entry's timestamp. A UUID is required to be
  canonical v4 text only where its characters matter, that is, for the
  short code.
- The range and validity limits of JavaScript `Date`. Times are unbounded
  integers.
- Header values that Node delivers as arrays, and query values that are
  arrays or nested objects. The source casts both objects to
  `Record<string, string>`, and the model keeps that declared type.
  The body is an opaque value.
- Node's own restriction of method tokens. The method is any string and is
  recorded unchanged.
- The return values of `createLink` and `addRequest`. Each returns its own
  argument, and no caller uses the value.
- Concurrency. The handlers run one at a time on Node's single thread, and
  the code has no synchronisation to model.
- MemoryStorage.CleanupExpiredLinks: requires the store invariant `Valid`,
  which holds of every store reachable from the empty one.
  `EmptyIsValid` and each operation's `Valid(s) ==> Valid(r)` show this. It
  is needed because the sweep visits the keys in insertion order, and only
  `Valid` ties that order to the link map.
- WebhookRoutes.Route: requires the handlers' invariant `ApiValid`, which
  `EmptyIsApiValid` and each handler's `ApiValid(s) ==> ApiValid(r)` show of
  every store the API reaches from the empty one.
