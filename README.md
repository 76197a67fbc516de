# Service-worker caching policy, modelled in Dafny

This project models the hand-written part of the site's service worker
(`sw.js`):

- the `message` listener. It calls `skipWaiting()` only for data whose `type` is `'SKIP_WAITING'`.
- the `activate` listener. It lists the caches and deletes every one except the precache generation `purple_mystic-precache-v1`.
- the `fetch` listener. It has three parts:
  - Two guards leave a request alone: `only-if-cached` outside `same-origin` mode, and any method other than `GET`.
  - A request with a non-empty `Range` header goes to the range branch. If the header is not of the form `bytes=<digits>-`, the listener throws before answering. Otherwise the body comes from the precache, or from the network on a miss, and the answer is a 206 response. If that fetch fails, the response promise rejects with the network error.
  - A request with no `Range` header, or an empty one, is served by cache-or-fetch. The oldest cache holding the URL answers. Otherwise the network answers, and its response is put into the precache. If that fetch fails, the response promise rejects and nothing is stored.

The browser's primitives are abstracted:

- CacheStorage is a list of cache names in creation order plus a map from name to cache. Each cache maps a request URL to a stored response. `caches.match` searches the caches in creation order.
- The network is an oracle: a fixed answer per request, either a response (of any HTTP status) or a network error. It keeps a log of the requests sent, so "no fetch" and "exactly one fetch" are statements about that log.
- Each listener runs as one sequential step.

Files, one module each:

- `wrappers.dfy`: `Option`.
- `js_values.dfy`: decimal digits, `Number(...)` on digit strings, the decimal text of integers, and JavaScript truthiness and property access for message data.
- `http.dfy`: `Request`, `Response`, bytes, and the `Network` class.
- `cache_storage.dfy`: the storage as a value (`Store`) with its operations and lemmas, plus the `CacheStorage` class whose methods update it in place.
- `router.dfy`: the pure part of the fetch listener. This covers classification, the range-header parse, `slice`, the `Content-Range` text and the 206 response.
- `service_worker.dfy`: the listeners. `FetchStep` is the specification of one fetch event. `OnFetch` and `OnActivate` are the imperative listeners, proved equal to `FetchStep` and `Purged`.

Points where the code's behaviour is easy to misread:

- Misses are written into the precache `purple_mystic-precache-v1` (sw.js:18, sw.js:98-99), not into a separate runtime cache.
- On a precache miss, the range branch fetches the original request, `Range` header included (sw.js:73). It then slices whatever body comes back from `pos`. Nothing here makes that body the whole resource.
- A `range` header that does not match `^bytes=(\d+)-$` makes the listener throw before `respondWith` (sw.js:62). No 416 response is produced.
- `caches.open` in the range branch creates the precache when it is missing (sw.js:68). So that branch can add an empty cache, but it never changes a stored entry or a `caches.match` result.
- The hand-written listener calls `respondWith` for every `GET` it neither declines nor throws on. The image and script routes registered later therefore do not take precedence over it for those requests. For a `GET` whose non-empty `Range` header is not `bytes=<digits>-` (a closed range such as `bytes=0-1`, say), the listener throws first, and the later routes may answer it.
- The activation deletes are not awaited before `clients.claim()`. The model runs them in order.

## Model

| member | source | states |
|---|---|---|
| `JsValues.DecimalValue` | sw.js:62 | `Number(...)` on a string of k digits is below 10^k, and at least 10^(k-1) when the first digit is not `0` |
| `JsValues.NatToString` | sw.js:85-86 | the decimal text of a number used in `Content-Range`: non-empty, all digits, no leading zero (`0` is written `0`), and reads back as the number |
| `JsValues.LeadingZeros` | sw.js:62 | a leading `0` adds nothing to `Number(...)` of a digit string, so `bytes=007-` starts at 7 |
| `JsValues.DecimalRoundTrip` | sw.js:62 | reading a digit string without leading zeros and printing the number gives the same string back |
| `JsValues.IntToString` | sw.js:85-86 | the text of `byteLength - 1`: it starts with `-` exactly when the number is negative, and the rest is a digit string without leading zeros that reads back as the magnitude |
| `Http.Network.Fetch` | sw.js:73 | a fetch adds exactly this request to the network's log and settles with the oracle's answer for it |
| `CacheStore.Get` | sw.js:70 | `cache.match(url)` on a named cache: nothing when the cache does not exist; otherwise a response exactly when that cache holds the URL |
| `CacheStore.MatchAll` | sw.js:94 | `caches.match` finds nothing exactly when no cache holds the URL; otherwise it returns the entry of the earliest-created cache that holds it |
| `CacheStore.Opened` | sw.js:68 | opening a cache leaves every stored entry as it was and lists the cache last when it is new |
| `CacheStore.MatchAllAgrees` | sw.js:94 | two storages with the same entries for a URL give the same `caches.match` result for it, also when the second adds a cache last that does not hold the URL |
| `CacheStore.OpenedKeepsMatches` | sw.js:68 | opening a cache changes no `caches.match` result for any URL |
| `CacheStore.WithEntry` | sw.js:98-99 | after a put, the URL maps to the response in the named cache, and every other cache and key is unchanged |
| `CacheStore.Deleted` | sw.js:36 | after a delete, the cache and all its entries are gone, the other caches are unchanged, and the name order is kept |
| `CacheStore.Purged` | sw.js:33-38 | after the purge, the names are the old names intersected with `{keep}`, `keep`'s entries are unchanged, and every other cache is empty |
| `CacheStore.PurgeIdempotent` | sw.js:33-38 | a second activation purge changes nothing |
| `CacheStore.PurgeAdvance` | sw.js:34-37 | visiting one listed name deletes it unless it is the kept name, and the cache names left so far stay exactly the kept ones |
| `CacheStore.CacheStorage.Keys` | sw.js:33 | `caches.keys()` returns the cache names in creation order |
| `CacheStore.CacheStorage.Open` | sw.js:68 | the storage becomes `Opened` of its old value |
| `CacheStore.CacheStorage.Put` | sw.js:98-99 | the storage becomes `WithEntry` of its old value |
| `CacheStore.CacheStorage.Delete` | sw.js:36 | reports whether the cache existed; the storage becomes `Deleted` of its old value |
| `Router.RangeHeader` | sw.js:60 | `headers.get('range')` is `null` exactly when the header is absent, and truthy exactly when it is present and non-empty |
| `Router.Classify` | sw.js:46-60 | the only-if-cached guard is tested first, then the `GET` guard; the range branch is taken exactly when the header is present and non-empty, and every other `GET` goes to cache-or-fetch |
| `Router.ParseRange` | sw.js:61-62 | a header is accepted exactly when it is `bytes=`, one or more ASCII digits, then `-`; the offset is the decimal value of those digits |
| `Router.RangeHeaderRoundTrip` | sw.js:61-62 | the header `bytes=<n>-` parses back to `n` for every `n` |
| `Router.ParseRangeRejectsOtherForms` | sw.js:62 | closed, suffix, multiple, empty and non-`bytes` ranges are all refused |
| `Router.SliceFrom` | sw.js:79 | the slice has length `max(0, L - pos)`, and byte `i` of it is byte `pos + i` of the buffer |
| `Router.PartialContent` | sw.js:78-87 | status 206 and "Partial Content"; one `Content-Range` header for `pos` and the buffer's length; the body is the buffer from `pos` |
| `Router.ContentRangeReadsBack` | sw.js:85-86 | reading the `Content-Range` text back (unit `bytes`, first position up to the first `-`, last position up to the first `/`, then the complete length) gives `pos`, `L - 1` and `L`; so the text determines both the offset and the length |
| `Router.ContentRangeMiddle` | sw.js:85-86 | offset 100 in a 150-byte body gives `bytes 100-149/150` |
| `Router.ContentRangeWhole` | sw.js:85-86 | offset 0 in a 50-byte body gives `bytes 0-49/50` |
| `Router.ContentRangePastEnd` | sw.js:85-86 | offset 60 in a 50-byte body gives `bytes 60-49/50`, first position above the last |
| `Router.ContentRangeEmpty` | sw.js:85-86 | an empty body gives `bytes 0--1/0` |
| `Router.PartialContentExamples` | sw.js:78-87 | a 50-byte body from 0 is the whole body; from 100 it is empty; from 60 its header is `bytes 60-49/50` |
| `ServiceWorker.OnMessage` | sw.js:20-24 | skip waiting exactly when the data is an object whose `type` property is the string `SKIP_WAITING` |
| `ServiceWorker.OnActivate` | sw.js:31-40 | the loop over `caches.keys()` leaves the storage equal to `Purged(old storage, PrecacheName)` |
| `ServiceWorker.VisitCacheKey` | sw.js:34-38 | the `forEach` callback deletes the listed cache unless it is the precache, keeping the purge invariant one name further |
| `ServiceWorker.RangeStep` | sw.js:67-88 | a precache hit answers with no fetch; a miss costs exactly one fetch of the original request; no stored entry changes; a network error rejects |
| `ServiceWorker.CacheOrFetchStep` | sw.js:91-110 | a hit in any cache answers with the earliest cache's entry and no fetch or change; a miss fetches once, returns the fetched response (any status) and stores it under the URL in the precache, touching nothing else and listing the precache last if it is new; a failed fetch rejects and stores nothing |
| `ServiceWorker.FetchStep` | sw.js:42-112 | declined requests touch neither the storage nor the network; at most one fetch, always of the request itself; only the request's URL in the precache can change; the cache names stay as they were, or gain the precache last when it was missing; the listener throws exactly for a present but unparsable range header; range answers are 206 |
| `ServiceWorker.OnFetch` | sw.js:42-112 | the imperative listener yields `FetchStep`'s outcome, new storage and network log |
| `ServiceWorker.MissThenHit` | sw.js:94-101 | after a miss that the network answers, the same request is served from the cache with the same response and no fetch |
| `ServiceWorker.RangeStepKeepsLookups` | sw.js:67-76 | the range branch changes no later `caches.match` result for any URL |
| `ServiceWorker.FetchStepKeepsOtherLookups` | sw.js:91-101 | a fetch event changes no later `caches.match` result for any URL other than the requested one |

## Left out

- The workbox set-up is not modelled. This covers `importScripts`, `skipWaiting`/`clientsClaim`, `setCacheNameDetails`, `precacheAndRoute` and the `CacheFirst`/`StaleWhileRevalidate` routes with their expiration plugin (sw.js:1-16, 119-163). Their behaviour lives in the workbox library, and the expiry rules depend on time and quota.
- The `install` listener (sw.js:26-29) and `clients.claim()` are not modelled. They only log and change lifecycle state.
- `skipWaiting()` itself is out of scope. `OnMessage` returns whether it is called.
- After `NotIntercepted` or `ListenerThrew`, the browser's default handling and any later listeners are not modelled. This includes the workbox routes and the plain network fetch.
- Event dispatch does not stop at `respondWith`: the workbox fetch listeners registered after sw.js:42 still run on a `GET` the hand-written listener intercepted. Whatever they do before their own `respondWith` fails is not modelled. The model's "no fetch" and "exactly one fetch" count only the hand-written listener's requests.
- Promise ordering and concurrency are not modelled. This covers the un-awaited deletes in `activate`, the un-awaited `cache.put`, and two handlers racing on one key. Each listener is one sequential step.
- Console logging (sw.js:27, 32, 47, 55, 64, 106) is left out.
- Router.ParseRange: the offset is an exact natural number. JavaScript's `Number` rounds digit strings above 2^53, and prints numbers of 10^21 or more in exponent form. Neither is modelled.
- Cache keys are request URLs. `Vary` handling, fragment stripping and `Request` normalisation of methods and header values belong to the browser and are not modelled.
- `Cache.put`'s own refusals are not modelled. These are a 206 response or `Vary: *`. Since the put is not awaited, a refusal would not change the response anyway.
- Response body streams, single reads, `clone()`, and failures of `arrayBuffer()` or `caches.open` are not modelled. Responses are plain values with a byte body.
- Http.Network.Fetch: the network answers the same request the same way every time. This is enough because each event fetches at most once.
- JsValues.JsValue: numbers are integers. NaN, fractions and prototype properties of primitives are not modelled. Only an object's own `type` property matters to the message check.
