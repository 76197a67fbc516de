/**
 * The worker's hand-written listeners: `message` (skip waiting on request),
 * `activate` (delete every cache but the current precache) and `fetch` (the
 * two guards, the range branch and cache-or-fetch), over the cache storage
 * and the network.
 */
module ServiceWorker {
  import opened Wrappers
  import opened JsValues
  import opened Http
  import opened CacheStore
  import opened Router

  /** The precache generation: the one cache activation keeps and the one misses are written to. */
  const PrecacheName: string := "purple_mystic-precache-v1"

  /** What one fetch event comes to. */
  datatype Outcome =
    | NotIntercepted                 // the listener returns without `respondWith`
    | ListenerThrew                  // the range parse threw before `respondWith`
    | Responded(response: Response)  // `respondWith` settled with this response
    | Rejected(error: NetError)      // `respondWith`'s promise rejected with a network error

  /** An event's outcome, the storage afterwards and the requests sent to the network. */
  datatype Step = Step(outcome: Outcome, store: Store, fetched: seq<Request>)

  // ---------------------------------------------------------------- message

  /** `event.data && event.data.type === 'SKIP_WAITING'`: whether to call `skipWaiting()`. */
  function OnMessage(data: JsValue): (skipWaiting: bool)
    ensures skipWaiting <==>
              data.Object? && "type" in data.properties && data.properties["type"] == String("SKIP_WAITING")
  {
    Truthy(data) && Property(data, "type") == String("SKIP_WAITING")
  }

  // --------------------------------------------------------------- activate

  /** Lists the caches, then deletes each one whose name is not the precache's. */
  method OnActivate(storage: CacheStorage)
    requires storage.Valid()
    modifies storage
    ensures storage.Valid()
    ensures storage.Value() == Purged(old(storage.Value()), PrecacheName)
  {
    ghost var before := storage.Value();
    var cacheKeys := storage.Keys();
    var i := 0;
    while i < |cacheKeys|
      invariant storage.Valid()
      invariant PurgedUpTo(before, storage.Value(), cacheKeys, i, PrecacheName)
    {
      VisitCacheKey(storage, before, cacheKeys, i);
      i := i + 1;
    }
    PurgeDone(before, storage.Value(), PrecacheName);
  }

  /** The `forEach` callback: delete the `i`-th listed cache unless it is the precache. */
  method VisitCacheKey(storage: CacheStorage, ghost before: Store, cacheKeys: seq<string>, i: nat)
    requires storage.Valid()
    requires PurgedUpTo(before, storage.Value(), cacheKeys, i, PrecacheName) && i < |cacheKeys|
    modifies storage
    ensures storage.Valid()
    ensures PurgedUpTo(before, storage.Value(), cacheKeys, i + 1, PrecacheName)
  {
    PurgeAdvance(before, storage.Value(), cacheKeys, i, PrecacheName);
    if cacheKeys[i] != PrecacheName {
      var _ := storage.Delete(cacheKeys[i]);
    }
  }

  // ------------------------------------------------------------------ fetch

  /**
   * The range branch once the start offset is parsed: open the precache, look
   * the URL up there only, fetch the original request on a miss (without
   * caching it), and answer 206 with the body from `pos`.
   */
  function RangeStep(s: Store, req: Request, pos: nat, answer: Request -> FetchResult): (st: Step)
    requires WellFormed(s)
    ensures WellFormed(st.store)
    ensures st.store.names == if PrecacheName in s.names then s.names else s.names + [PrecacheName]
    ensures forall n, u :: Get(st.store, n, u) == Get(s, n, u)
    ensures Get(s, PrecacheName, req.url).Some? ==>
              st.fetched == [] &&
              st.outcome == Responded(PartialContent(Get(s, PrecacheName, req.url).value.body, pos))
    ensures Get(s, PrecacheName, req.url).None? ==> st.fetched == [req]
    ensures Get(s, PrecacheName, req.url).None? && answer(req).Ok? ==>
              st.outcome == Responded(PartialContent(answer(req).response.body, pos))
    ensures Get(s, PrecacheName, req.url).None? && answer(req).Err? ==>
              st.outcome == Rejected(answer(req).error)
  {
    var withPrecache := Opened(s, PrecacheName);
    match Get(withPrecache, PrecacheName, req.url)
    case Some(cached) => Step(Responded(PartialContent(cached.body, pos)), withPrecache, [])
    case None =>
      match answer(req)
      case Ok(fetched) => Step(Responded(PartialContent(fetched.body, pos)), withPrecache, [req])
      case Err(e) => Step(Rejected(e), withPrecache, [req])
  }

  /**
   * Cache-or-fetch: the oldest cache holding the URL answers; otherwise the
   * network does, and its response (whatever its status) is put into the
   * precache; a network error is passed on and nothing is stored.
   */
  function CacheOrFetchStep(s: Store, req: Request, answer: Request -> FetchResult): (st: Step)
    requires WellFormed(s)
    ensures WellFormed(st.store)
    ensures (exists n :: Get(s, n, req.url).Some?) ==>
              st.fetched == [] && st.store == s && st.outcome.Responded? &&
              exists i :: 0 <= i < |s.names| && Get(s, s.names[i], req.url) == Some(st.outcome.response) &&
                          forall j :: 0 <= j < i ==> Get(s, s.names[j], req.url).None?
    ensures (forall n :: Get(s, n, req.url).None?) ==> st.fetched == [req]
    ensures (forall n :: Get(s, n, req.url).None?) && answer(req).Ok? ==>
              st.outcome == Responded(answer(req).response) &&
              st.store.names == (if PrecacheName in s.names then s.names else s.names + [PrecacheName]) &&
              Get(st.store, PrecacheName, req.url) == Some(answer(req).response) &&
              forall n, u :: n != PrecacheName || u != req.url ==> Get(st.store, n, u) == Get(s, n, u)
    ensures (forall n :: Get(s, n, req.url).None?) && answer(req).Err? ==>
              st.outcome == Rejected(answer(req).error) && st.store == s
  {
    match MatchAll(s, req.url)
    case Some(cached) => Step(Responded(cached), s, [])
    case None =>
      match answer(req)
      case Ok(fetched) => Step(Responded(fetched), WithEntry(s, PrecacheName, req.url, fetched), [req])
      case Err(e) => Step(Rejected(e), s, [req])
  }

  /** The whole fetch listener on one request. */
  function FetchStep(s: Store, req: Request, answer: Request -> FetchResult): (st: Step)
    requires WellFormed(s)
    ensures WellFormed(st.store)
    ensures st.fetched == [] || st.fetched == [req]
    ensures st.store.names == s.names || (PrecacheName !in s.names && st.store.names == s.names + [PrecacheName])
    ensures forall n, u :: n != PrecacheName || u != req.url ==> Get(st.store, n, u) == Get(s, n, u)
    ensures req.cache == "only-if-cached" && req.mode != "same-origin" ==> st == Step(NotIntercepted, s, [])
    ensures req.httpMethod != "GET" ==> st == Step(NotIntercepted, s, [])
    ensures st.outcome == NotIntercepted ==> st.store == s && st.fetched == []
    ensures st.outcome == ListenerThrew <==>
              Classify(req).RangeRequest? && ParseRange(req.range.value).None?
    ensures st.outcome == ListenerThrew ==> st.store == s && st.fetched == []
    ensures Classify(req).RangeRequest? && st.outcome.Responded? ==>
              st.outcome.response.status == 206 && st.outcome.response.statusText == "Partial Content"
    ensures Classify(req).RangeRequest? ==> forall n, u :: Get(st.store, n, u) == Get(s, n, u)
  {
    match Classify(req)
    case PassThrough(_) => Step(NotIntercepted, s, [])
    case RangeRequest(header) =>
      (match ParseRange(header)
       case None => Step(ListenerThrew, s, [])
       case Some(pos) => RangeStep(s, req, pos, answer))
    case CacheOrFetch => CacheOrFetchStep(s, req, answer)
  }

  /** The fetch listener acting on the storage and the network in place. */
  method OnFetch(storage: CacheStorage, network: Network, req: Request) returns (outcome: Outcome)
    requires storage.Valid()
    modifies storage, network
    ensures storage.Valid()
    ensures outcome == FetchStep(old(storage.Value()), req, network.answer).outcome
    ensures storage.Value() == FetchStep(old(storage.Value()), req, network.answer).store
    ensures network.sent == old(network.sent) + FetchStep(old(storage.Value()), req, network.answer).fetched
  {
    match Classify(req)
    case PassThrough(_) =>
      return NotIntercepted;
    case RangeRequest(header) =>
      var pos := ParseRange(header);
      if pos.None? {
        return ListenerThrew;
      }
      storage.Open(PrecacheName);
      var cached := Get(storage.Value(), PrecacheName, req.url);
      var buffer;
      if cached.Some? {
        buffer := cached.value.body;
      } else {
        var fetched := network.Fetch(req);
        if fetched.Err? {
          return Rejected(fetched.error);
        }
        buffer := fetched.response.body;
      }
      return Responded(PartialContent(buffer, pos.value));
    case CacheOrFetch =>
      var cached := MatchAll(storage.Value(), req.url);
      if cached.Some? {
        return Responded(cached.value);
      }
      var fetched := network.Fetch(req);
      if fetched.Err? {
        return Rejected(fetched.error);
      }
      storage.Put(PrecacheName, req.url, fetched.response);
      return Responded(fetched.response);
  }

  // --------------------------------------------------------------- lemmas

  /**
   * A miss that the network answers is a hit the next time: the same request
   * gets the same response from the cache, whatever the network would say.
   */
  lemma MissThenHit(s: Store, req: Request, answer: Request -> FetchResult, later: Request -> FetchResult)
    requires WellFormed(s)
    requires Classify(req).CacheOrFetch?
    requires forall n :: Get(s, n, req.url).None?
    requires answer(req).Ok?
    ensures var first := FetchStep(s, req, answer);
            first.fetched == [req] &&
            FetchStep(first.store, req, later) == Step(first.outcome, first.store, [])
  {
  }

  /** The range branch never changes which response cache-or-fetch finds for any URL. */
  lemma RangeStepKeepsLookups(s: Store, req: Request, pos: nat, answer: Request -> FetchResult, url: string)
    requires WellFormed(s)
    ensures MatchAll(RangeStep(s, req, pos, answer).store, url) == MatchAll(s, url)
  {
    OpenedKeepsMatches(s, PrecacheName, url);
  }

  /**
   * A fetch event never changes which response cache-or-fetch finds for any
   * other URL: it writes at most the requested URL, and a precache it creates
   * is the newest cache and holds only that URL.
   */
  lemma FetchStepKeepsOtherLookups(s: Store, req: Request, answer: Request -> FetchResult, url: string)
    requires WellFormed(s)
    requires url != req.url
    ensures MatchAll(FetchStep(s, req, answer).store, url) == MatchAll(s, url)
  {
    MatchAllAgrees(s, FetchStep(s, req, answer).store, url, PrecacheName);
  }
}
