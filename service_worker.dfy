/**
 * The service worker (`service-worker.js`, version `v2.0.0`): the fetch
 * router, the five fetch strategies, install/activate cache management and
 * the offline-store fallback for API requests.
 *
 * Cache Storage is a class holding `map<cacheName, map<requestKey, Response>>`
 * plus the creation order of the caches (which `caches.match` follows). The
 * network is an input: each fetch either `Responded` with some response or
 * `Threw`; for the API handler the 5000 ms timer winning the race is the
 * `timedOut` flag.
 */
module ServiceWorker {
  import opened Wrappers
  import opened Text
  import Sorting
  import OfflineStore
  import Lists

  const SwVersion := "v2.0.0"
  const ShellCache := "shell-v2.0.0"
  const ImagesCache := "images-v2.0.0"
  const ApiCache := "api-v2.0.0"
  const ValidCaches: seq<string> := [ShellCache, ImagesCache, ApiCache]
  const ShellAssets: seq<string> := ["/", "/index.html", "/styles.css", "/main.js", "/offline.html"]
  /** Milliseconds the API handler waits for the network. */
  const ApiTimeout := 5000

  /** What `JSON.stringify` received in an offline-store reply. */
  datatype StoreData =
    | ChapterList(chapters: seq<OfflineStore.StoredChapter>)
    | NovelRecord(novel: OfflineStore.StoredNovel)
    /** An object without own enumerable properties: serialises as `{}`. */
    | EmptyObject

  datatype Body =
    /** A body that came from the network, passed through untouched. */
    | Passed(tag: string)
    | Html(html: string)
    | PlainText(text: string)
    | Binary(bytes: seq<bv8>)
    /** `{success, data, fromCache}` */
    | StoreEnvelope(success: bool, data: StoreData, fromCache: bool)
    /** `{error, offline}` */
    | OfflineError(error: string, offline: bool)

  datatype Response = Response(status: int, contentType: Option<string>, body: Body)

  predicate Ok(r: Response) {
    200 <= r.status <= 299
  }

  /** The outcome of one `fetch`. */
  datatype Fetch = Responded(response: Response) | Threw

  predicate FetchOk(f: Fetch) {
    f.Responded? && Ok(f.response)
  }

  /** What `event.respondWith` receives: a response, or a promise of `undefined`. */
  datatype Served = Respond(response: Response) | Undefined

  function ServedOf(m: Option<Response>): (s: Served)
    ensures s.Respond? <==> m.Some?
    ensures s.Respond? ==> s.response == m.value
  {
    if m.Some? then Respond(m.value) else Undefined
  }

  // ---------------------------------------------------------------- router

  /** Which strategy serves a request, or `Passthrough` when the worker does not call `respondWith`. */
  datatype Handler = Passthrough | PageHandler | ApiHandler | ImageHandler | ShellHandler | ExternalHandler

  /**
   * The fetch router: non-GET and `chrome-extension:` requests are left to the
   * browser; same-origin requests go to the first matching strategy; anything
   * else is network-only.
   */
  function Route(httpMethod: string, protocol: string, sameOrigin: bool, destination: string, pathname: string): (h: Handler)
    ensures h == Passthrough <==> httpMethod != "GET" || protocol == "chrome-extension:"
    ensures h == PageHandler <==>
      httpMethod == "GET" && protocol != "chrome-extension:" && sameOrigin && destination == "document"
    ensures h == ApiHandler <==>
      httpMethod == "GET" && protocol != "chrome-extension:" && sameOrigin && destination != "document"
      && StartsWith(pathname, "/api")
    ensures h == ImageHandler <==>
      httpMethod == "GET" && protocol != "chrome-extension:" && sameOrigin && destination != "document"
      && !StartsWith(pathname, "/api") && destination == "image"
    ensures h == ShellHandler <==>
      httpMethod == "GET" && protocol != "chrome-extension:" && sameOrigin && destination != "document"
      && !StartsWith(pathname, "/api") && destination in {"script", "style", "font"}
    ensures h == ExternalHandler <==>
      httpMethod == "GET" && protocol != "chrome-extension:"
      && (!sameOrigin || (destination !in {"document", "image", "script", "style", "font"} && !StartsWith(pathname, "/api")))
  {
    if httpMethod != "GET" then Passthrough
    else if protocol == "chrome-extension:" then Passthrough
    else if sameOrigin && destination == "document" then PageHandler
    else if sameOrigin && StartsWith(pathname, "/api") then ApiHandler
    else if sameOrigin && destination == "image" then ImageHandler
    else if sameOrigin && (destination == "script" || destination == "style" || destination == "font") then ShellHandler
    else ExternalHandler
  }

  /** `/^<prefix>[^/]+$/`: the prefix followed by one non-empty path segment. */
  predicate OneSegmentAfter(pathname: string, prefix: string) {
    StartsWith(pathname, prefix) && |pathname| > |prefix| && '/' !in pathname[|prefix|..]
  }

  /** The five offline route patterns. */
  predicate IsOfflineRoute(pathname: string) {
    || StartsWith(pathname, "/offline-library")
    || pathname == "/offline"
    || OneSegmentAfter(pathname, "/offline-reader/")
    || OneSegmentAfter(pathname, "/offline-novel/")
    || StartsWith(pathname, "/offline-favorites")
  }

  // ---------------------------------------------------------------- caches

  /** `caches.match(key)`: the entry of the first cache, in creation order, holding `key`. */
  function FirstMatch(names: seq<string>, entries: map<string, map<string, Response>>, key: string): (r: Option<Response>)
    ensures r.Some? ==> exists i :: 0 <= i < |names| && names[i] in entries && key in entries[names[i]] && entries[names[i]][key] == r.value
    ensures r.None? <==> forall i :: 0 <= i < |names| && names[i] in entries ==> key !in entries[names[i]]
  {
    if names == [] then None
    else if names[0] in entries && key in entries[names[0]] then Some(entries[names[0]][key])
    else
      var r := FirstMatch(names[1..], entries, key);
      assert forall i :: 1 <= i < |names| ==> names[i] == names[1..][i - 1];
      r
  }

  /** The cache names kept by activation, in their order. */
  function KeepValid(names: seq<string>): (r: seq<string>)
    ensures |r| <= |names|
  {
    if names == [] then []
    else if names[0] in ValidCaches then [names[0]] + KeepValid(names[1..])
    else KeepValid(names[1..])
  }

  /** The caches that survive activation are exactly the old ones whose name is current. */
  lemma {:induction false} KeepValidMembers(names: seq<string>)
    ensures forall n :: n in KeepValid(names) <==> n in names && n in ValidCaches
  {
    if names != [] {
      KeepValidMembers(names[1..]);
      assert names == [names[0]] + names[1..];
    }
  }

  /** Keeping the valid names distributes over concatenation. */
  lemma {:induction false} KeepValidAppend(a: seq<string>, b: seq<string>)
    ensures KeepValid(a + b) == KeepValid(a) + KeepValid(b)
  {
    if a != [] {
      assert (a + b)[1..] == a[1..] + b;
      KeepValidAppend(a[1..], b);
    } else {
      assert a + b == b;
    }
  }

  /** The predicate `caches.delete(name)` keeps the other names by. */
  function NotNamed(name: string): string -> bool {
    n => n != name
  }

  class CacheStorage {
    /** Cache names in creation order. */
    var names: seq<string>
    var entries: map<string, map<string, Response>>

    ghost predicate Valid()
      reads this
    {
      Lists.Distinct(names) && forall n :: n in entries <==> n in names
    }

    constructor ()
      ensures Valid() && names == [] && entries == map[]
    {
      names, entries := [], map[];
    }

    /** The contents of one cache; a cache that does not exist is empty. */
    function Contents(name: string): map<string, Response>
      reads this
    {
      if name in entries then entries[name] else map[]
    }

    /** `caches.open(name)`: creates the cache when it does not exist. */
    method Open(name: string)
      requires Valid()
      modifies this
      ensures Valid()
      ensures name in old(entries) ==> names == old(names) && entries == old(entries)
      ensures name !in old(entries) ==> names == old(names) + [name] && entries == old(entries)[name := map[]]
    {
      if name !in entries {
        names := names + [name];
        entries := entries[name := map[]];
      }
    }

    /** `(await caches.open(name)).put(key, response)` */
    method Put(name: string, key: string, response: Response)
      requires Valid()
      modifies this
      ensures Valid()
      ensures name in names
      ensures forall n :: n in names <==> n in old(names) || n == name
      ensures name in old(names) ==> names == old(names)
      ensures entries == old(entries)[name := old(Contents(name))[key := response]]
    {
      Open(name);
      entries := entries[name := entries[name][key := response]];
    }

    /** `caches.match(key)` over every cache, in creation order. */
    method MatchAll(key: string) returns (r: Option<Response>)
      requires Valid()
      ensures r == FirstMatch(names, entries, key)
    {
      var i := 0;
      while i < |names|
        invariant 0 <= i <= |names|
        invariant FirstMatch(names, entries, key) == FirstMatch(names[i..], entries, key)
      {
        if names[i] in entries && key in entries[names[i]] {
          return Some(entries[names[i]][key]);
        }
        assert names[i..][1..] == names[i + 1..];
        i := i + 1;
      }
      return None;
    }

    /** `caches.delete(name)` */
    method Delete(name: string)
      requires Valid()
      modifies this
      ensures Valid()
      ensures names == Lists.Filter(old(names), NotNamed(name))
      ensures forall n :: n in names <==> n in old(names) && n != name
      ensures entries == old(entries) - {name}
    {
      var all := names;
      var i := 0;
      var kept := [];
      while i < |all|
        invariant 0 <= i <= |all|
        invariant unchanged(this)
        invariant Lists.Distinct(kept)
        invariant forall n :: n in kept <==> n in all[..i] && n != name
        invariant kept == Lists.Filter(all[..i], NotNamed(name))
      {
        assert all[..i + 1] == all[..i] + [all[i]];
        Lists.FilterAppend(all[..i], [all[i]], NotNamed(name));
        assert Lists.Filter([all[i]], NotNamed(name)) == if all[i] != name then [all[i]] else [];
        assert all[i] !in all[..i] by {
          forall j | 0 <= j < i ensures all[..i][j] != all[i] {}
        }
        if all[i] != name {
          kept := kept + [all[i]];
        }
        i := i + 1;
      }
      assert all[..i] == all;
      forall n ensures n in kept <==> n in entries && n != name {
        assert n in entries <==> n in all;
      }
      names, entries := kept, entries - {name};
    }
  }

  // ---------------------------------------------------------------- install

  /** The synthesised offline page (its markup is not modelled character by character). */
  const OfflineHtmlTitle := "Ngoại tuyến"

  function OfflinePage(): (r: Response)
    ensures r.status == 200 && r.contentType == Some("text/html") && r.body.Html?
  {
    Response(200, Some("text/html"), Html(OfflineHtmlTitle))
  }

  /** The shell cache after each asset's fetch has settled: only OK responses are stored. */
  function PutAssets(shell: map<string, Response>, assets: seq<string>, network: string -> Fetch): map<string, Response>
  {
    if assets == [] then shell
    else
      var a := assets[|assets| - 1];
      var before := PutAssets(shell, assets[..|assets| - 1], network);
      if FetchOk(network(a)) then before[a := network(a).response] else before
  }

  /** The shell cache at the end of a successful install. */
  function InstalledShell(shell: map<string, Response>, network: string -> Fetch): map<string, Response> {
    PutAssets(shell, ShellAssets, network)["/offline.html" := OfflinePage()]
  }

  /** Each asset is cached independently of the others' outcomes. */
  lemma {:induction false} PutAssetsAt(shell: map<string, Response>, assets: seq<string>, network: string -> Fetch, key: string)
    ensures key in assets && FetchOk(network(key)) ==>
      key in PutAssets(shell, assets, network) && PutAssets(shell, assets, network)[key] == network(key).response
    ensures !(key in assets && FetchOk(network(key))) ==>
      (key in PutAssets(shell, assets, network) <==> key in shell)
      && (key in shell ==> PutAssets(shell, assets, network)[key] == shell[key])
  {
    if assets != [] {
      PutAssetsAt(shell, assets[..|assets| - 1], network, key);
      assert assets == assets[..|assets| - 1] + [assets[|assets| - 1]];
    }
  }

  /** After install `/offline.html` is the synthesised page, and every other asset is its OK response or what was cached before. */
  lemma InstalledShellAt(shell: map<string, Response>, network: string -> Fetch, key: string)
    ensures "/offline.html" in InstalledShell(shell, network)
    ensures InstalledShell(shell, network)["/offline.html"] == OfflinePage()
    ensures key != "/offline.html" && key in ShellAssets && FetchOk(network(key)) ==>
      key in InstalledShell(shell, network) && InstalledShell(shell, network)[key] == network(key).response
    ensures key != "/offline.html" && !(key in ShellAssets && FetchOk(network(key))) ==>
      (key in InstalledShell(shell, network) <==> key in shell)
      && (key in shell ==> InstalledShell(shell, network)[key] == shell[key])
  {
    PutAssetsAt(shell, ShellAssets, network, key);
  }

  /**
   * The install handler: fetches every shell asset (settling each on its own),
   * stores the OK ones, then overwrites `/offline.html` with the synthesised
   * page.
   */
  method Install(caches: CacheStorage, network: string -> Fetch)
    requires caches.Valid()
    modifies caches
    ensures caches.Valid()
    ensures ShellCache in caches.names
    ensures forall n :: n in caches.names <==> n in old(caches.names) || n == ShellCache
    ensures caches.entries == old(caches.entries)[ShellCache := InstalledShell(old(caches.Contents(ShellCache)), network)]
  {
    caches.Open(ShellCache);
    AddAll(caches, ShellCache, ShellAssets, network);
    caches.Put(ShellCache, "/offline.html", OfflinePage());
  }

  /** `Promise.allSettled` over the assets: each one fetched on its own and stored when the response is OK. */
  method AddAll(caches: CacheStorage, name: string, assets: seq<string>, network: string -> Fetch)
    requires caches.Valid() && name in caches.names
    modifies caches
    ensures caches.Valid() && caches.names == old(caches.names)
    ensures caches.entries == old(caches.entries)[name := PutAssets(old(caches.Contents(name)), assets, network)]
  {
    ghost var start := caches.Contents(name);
    var i := 0;
    while i < |assets|
      invariant 0 <= i <= |assets|
      invariant caches.Valid() && caches.names == old(caches.names)
      invariant caches.entries == old(caches.entries)[name := PutAssets(start, assets[..i], network)]
    {
      assert assets[..i + 1][..i] == assets[..i];
      if FetchOk(network(assets[i])) {
        caches.Put(name, assets[i], network(assets[i]).response);
      }
      i := i + 1;
    }
    assert assets[..i] == assets;
  }

  /** The activate handler: deletes every cache that is not one of the three current ones. */
  method Activate(caches: CacheStorage)
    requires caches.Valid()
    modifies caches
    ensures caches.Valid()
    ensures caches.names == KeepValid(old(caches.names))
    ensures forall n :: n in caches.names <==> n in old(caches.names) && n in ValidCaches
    ensures forall n :: n in caches.entries ==> caches.entries[n] == old(caches.entries)[n]
  {
    var all := caches.names;
    HeldFirst(all);
    var i := 0;
    while i < |all|
      invariant 0 <= i <= |all|
      invariant caches.Valid()
      invariant forall n :: n in caches.entries ==> n in old(caches.entries) && caches.entries[n] == old(caches.entries)[n]
      invariant caches.names == Held(all, i)
    {
      ActivateStep(all, i);
      if all[i] !in ValidCaches {
        caches.Delete(all[i]);
      }
      assert caches.names == Held(all, i + 1);
      i := i + 1;
    }
    HeldLast(all);
    KeepValidMembers(all);
  }

  /** The names `Activate` holds after looking at the first `i` of `all`. */
  function Held(all: seq<string>, i: nat): seq<string>
    requires i <= |all|
  {
    KeepValid(all[..i]) + all[i..]
  }

  /** Before the first step all names are held. */
  lemma HeldFirst(all: seq<string>)
    ensures Held(all, 0) == all
  {
    assert all[..0] == [] && all[0..] == all;
  }

  /** After the last step the valid names are held. */
  lemma HeldLast(all: seq<string>)
    ensures Held(all, |all|) == KeepValid(all)
  {
    assert all[..|all|] == all;
  }

  /**
   * One step of `Activate`: from the names held at step `i`, keeping or
   * deleting `all[i]` leaves the names held at step `i + 1`.
   */
  lemma ActivateStep(all: seq<string>, i: nat)
    requires Lists.Distinct(all) && i < |all|
    ensures (if all[i] in ValidCaches then Held(all, i) else Lists.Filter(Held(all, i), NotNamed(all[i]))) == Held(all, i + 1)
  {
    var x, kept, rest := all[i], KeepValid(all[..i]), all[i + 1..];
    assert all[..i + 1] == all[..i] + [x];
    assert all[i..] == [x] + rest;
    KeepValidAppend(all[..i], [x]);
    assert KeepValid([x]) == if x in ValidCaches then [x] else [];
    if x in ValidCaches {
      assert kept + ([x] + rest) == (kept + [x]) + rest;
    } else {
      assert x !in rest by {
        forall j | i < j < |all| ensures all[j] != x {}
      }
      Lists.FilterAppend(kept, [x] + rest, NotNamed(x));
      Lists.FilterAppend([x], rest, NotNamed(x));
      KeepValidMembers(all[..i]);
      assert forall j :: 0 <= j < |kept| ==> NotNamed(x)(kept[j]) by {
        forall j | 0 <= j < |kept| ensures NotNamed(x)(kept[j]) {
          assert kept[j] in kept;
        }
      }
      Lists.FilterAll(kept, NotNamed(x));
      Lists.FilterAll(rest, NotNamed(x));
      assert kept + [] == kept;
    }
  }

  // ---------------------------------------------------------------- handlers

  /** A request as the handlers see it; `key` is what the caches match on. */
  datatype Request = Request(key: string, pathname: string)

  /**
   * Pages, network first: an OK response is cached in the shell cache; else an
   * offline route gets its cached copy or the cached `/index.html`; any other
   * route gets the cached `/offline.html`. A cache miss yields `undefined`
   * (the `|| …` alternatives test a promise and are never taken).
   */
  twostate predicate PageServed(caches: CacheStorage, request: Request, network: Fetch, r: Served)
    reads caches
  {
    && (FetchOk(network) ==>
      && r == Respond(network.response)
      && caches.entries == old(caches.entries)[ShellCache := old(caches.Contents(ShellCache))[request.key := network.response]])
    && (!FetchOk(network) ==> caches.names == old(caches.names) && caches.entries == old(caches.entries))
    && (!FetchOk(network) && IsOfflineRoute(request.pathname) ==>
      r == (if FirstMatch(caches.names, caches.entries, request.key).Some?
            then Respond(FirstMatch(caches.names, caches.entries, request.key).value)
            else ServedOf(FirstMatch(caches.names, caches.entries, "/index.html"))))
    && (!FetchOk(network) && !IsOfflineRoute(request.pathname) ==>
      r == ServedOf(FirstMatch(caches.names, caches.entries, "/offline.html")))
  }

  method HandlePage(caches: CacheStorage, request: Request, network: Fetch) returns (r: Served)
    requires caches.Valid()
    modifies caches
    ensures caches.Valid()
    ensures PageServed(caches, request, network, r)
  {
    if FetchOk(network) {
      caches.Put(ShellCache, request.key, network.response);
      return Respond(network.response);
    }
    if IsOfflineRoute(request.pathname) {
      var cached := caches.MatchAll(request.key);
      if cached.Some? {
        return Respond(cached.value);
      }
      var shell := caches.MatchAll("/index.html");
      return ServedOf(shell);
    }
    var page := caches.MatchAll("/offline.html");
    return ServedOf(page);
  }

  const OfflineApiError := "Offline - No cached data available"

  /** The 503 JSON reply of the API handler (RFC 9110, section 15.6.4). */
  function OfflineApiResponse(): (r: Response)
    ensures r.status == 503 && !Ok(r) && r.contentType == Some("application/json")
    ensures r.body == OfflineError(OfflineApiError, true)
  {
    Response(503, Some("application/json"), OfflineError(OfflineApiError, true))
  }

  /**
   * API requests, network first with a 5000 ms race: an OK response is cached
   * in the API cache; otherwise any cache, then (for paths containing
   * `/novels`) the offline store, then the 503 JSON error.
   */
  twostate predicate ApiServed(caches: CacheStorage, store: OfflineStore.IndexedDBService, request: Request,
                               network: Fetch, timedOut: bool, storeOpens: bool, r: Served)
    reads caches, store
  {
    var failed := timedOut || !FetchOk(network);
    var hit := FirstMatch(caches.names, caches.entries, request.key);
    && r.Respond?
    && (!failed ==>
      && r == Respond(network.response)
      && caches.entries == old(caches.entries)[ApiCache := old(caches.Contents(ApiCache))[request.key := network.response]])
    && (failed ==> caches.names == old(caches.names) && caches.entries == old(caches.entries))
    && (failed && hit.Some? ==> r == Respond(hit.value))
    && (failed && hit.None? && !Contains(request.pathname, "/novels") ==> r == Respond(OfflineApiResponse()))
    && (failed && hit.None? && Contains(request.pathname, "/novels") ==>
      exists answer :: StoreFallbackReply(request.pathname, store, storeOpens, answer)
        && r == Respond(if answer.Some? then answer.value else OfflineApiResponse()))
  }

  method HandleApi(caches: CacheStorage, store: OfflineStore.IndexedDBService, request: Request,
                   network: Fetch, timedOut: bool, storeOpens: bool) returns (r: Served)
    requires caches.Valid() && store.Valid()
    modifies caches
    ensures caches.Valid()
    ensures ApiServed(caches, store, request, network, timedOut, storeOpens, r)
  {
    if !timedOut && FetchOk(network) {
      caches.Put(ApiCache, request.key, network.response);
      return Respond(network.response);
    }
    var cached := caches.MatchAll(request.key);
    if cached.Some? {
      return Respond(cached.value);
    }
    if Contains(request.pathname, "/novels") {
      var fromStore := TryStoreFallback(request.pathname, store, storeOpens);
      if fromStore.Some? {
        return Respond(fromStore.value);
      }
    }
    return Respond(OfflineApiResponse());
  }

  /** `[0x89, 'P', 'N', 'G', '\r', '\n', 0x1A, '\n']` */
  const PngSignature: seq<bv8> := [0x89, 0x50, 0x4E, 0x47, 0x0D, 0x0A, 0x1A, 0x0A]

  /** IHDR: length 13, width 1, height 1, bit depth 8, colour type 6 (RGBA), CRC. */
  const IhdrChunk: seq<bv8> := [
    0x00, 0x00, 0x00, 0x0D, 0x49, 0x48, 0x44, 0x52,
    0x00, 0x00, 0x00, 0x01, 0x00, 0x00, 0x00, 0x01, 0x08, 0x06, 0x00, 0x00, 0x00,
    0x1F, 0x15, 0xC4, 0x89]
  /** IDAT: length 10, one deflated transparent pixel, CRC. */
  const IdatChunk: seq<bv8> := [
    0x00, 0x00, 0x00, 0x0A, 0x49, 0x44, 0x41, 0x54,
    0x78, 0x9C, 0x63, 0x00, 0x01, 0x00, 0x00, 0x05, 0x00, 0x01,
    0x0D, 0x0A, 0x2D, 0xB4]
  /** IEND: length 0, CRC. */
  const IendChunk: seq<bv8> := [0x00, 0x00, 0x00, 0x00, 0x49, 0x45, 0x4E, 0x44, 0xAE, 0x42, 0x60, 0x82]

  /** The transparent 1x1 PNG returned when an image cannot be had. */
  const PlaceholderPng: seq<bv8> := PngSignature + IhdrChunk + IdatChunk + IendChunk

  /** Big-endian 32-bit value of four bytes. */
  function Be32(b: seq<bv8>): nat
    requires |b| == 4
  {
    ((b[0] as nat * 256 + b[1] as nat) * 256 + b[2] as nat) * 256 + b[3] as nat
  }

  /**
   * The placeholder reply: status 200, `image/png`, 67 bytes that begin with
   * the PNG signature (PNG Specification, Second Edition, section 5.2) and end
   * with the IEND chunk.
   */
  function PlaceholderImage(): (r: Response)
    ensures r.status == 200 && Ok(r) && r.contentType == Some("image/png")
    ensures r.body.Binary? && |r.body.bytes| == 67
    ensures r.body.bytes[..8] == PngSignature
    ensures r.body.bytes[55..] == IendChunk
  {
    var bytes := PlaceholderPng;
    assert bytes[..8] == PngSignature;
    assert bytes[55..] == IendChunk;
    Response(200, Some("image/png"), Binary(bytes))
  }

  /** The chunk after the signature is a 13-byte IHDR for a 1x1 image. */
  lemma PlaceholderHeader()
    ensures PlaceholderPng[8..33] == IhdrChunk
    ensures Be32(IhdrChunk[..4]) == 13 && IhdrChunk[4..8] == [0x49, 0x48, 0x44, 0x52]
    ensures Be32(IhdrChunk[8..12]) == 1 && Be32(IhdrChunk[12..16]) == 1
  {
    assert PlaceholderPng[8..33] == IhdrChunk;
    assert IhdrChunk[..4] == [0x00, 0x00, 0x00, 0x0D];
    assert IhdrChunk[8..12] == [0x00, 0x00, 0x00, 0x01];
    assert IhdrChunk[12..16] == [0x00, 0x00, 0x00, 0x01];
  }

  /**
   * Images, cache first in the images cache (which `caches.open` creates): a
   * hit never touches the network; an OK fetch is stored; anything else gets
   * the placeholder PNG.
   */
  twostate predicate ImageServed(caches: CacheStorage, request: Request, network: Fetch, r: Served)
    reads caches
  {
    var images := old(caches.Contents(ImagesCache));
    && r.Respond?
    && (request.key in images ==>
      r == Respond(images[request.key]) && caches.entries == old(caches.entries)[ImagesCache := images])
    && (request.key !in images && FetchOk(network) ==>
      r == Respond(network.response) && caches.entries == old(caches.entries)[ImagesCache := images[request.key := network.response]])
    && (request.key !in images && !FetchOk(network) ==>
      r == Respond(PlaceholderImage()) && caches.entries == old(caches.entries)[ImagesCache := images])
  }

  method HandleImage(caches: CacheStorage, request: Request, network: Fetch) returns (r: Served)
    requires caches.Valid()
    modifies caches
    ensures caches.Valid()
    ensures ImageServed(caches, request, network, r)
  {
    caches.Open(ImagesCache);
    if request.key in caches.entries[ImagesCache] {
      return Respond(caches.entries[ImagesCache][request.key]);
    }
    if FetchOk(network) {
      caches.Put(ImagesCache, request.key, network.response);
      return Respond(network.response);
    }
    return Respond(PlaceholderImage());
  }

  /**
   * Scripts, styles and fonts, cache first in the shell cache: an OK fetch is
   * stored; otherwise the second lookup misses again and yields `undefined`
   * (the 404 alternative is never taken).
   */
  twostate predicate ShellServed(caches: CacheStorage, request: Request, network: Fetch, r: Served)
    reads caches
  {
    var shell := old(caches.Contents(ShellCache));
    && (request.key in shell ==>
      r == Respond(shell[request.key]) && caches.entries == old(caches.entries)[ShellCache := shell])
    && (request.key !in shell && FetchOk(network) ==>
      r == Respond(network.response) && caches.entries == old(caches.entries)[ShellCache := shell[request.key := network.response]])
    && (request.key !in shell && !FetchOk(network) ==>
      r == Undefined && caches.entries == old(caches.entries)[ShellCache := shell])
  }

  method HandleShell(caches: CacheStorage, request: Request, network: Fetch) returns (r: Served)
    requires caches.Valid()
    modifies caches
    ensures caches.Valid()
    ensures ShellServed(caches, request, network, r)
  {
    caches.Open(ShellCache);
    if request.key in caches.entries[ShellCache] {
      return Respond(caches.entries[ShellCache][request.key]);
    }
    if FetchOk(network) {
      caches.Put(ShellCache, request.key, network.response);
      return Respond(network.response);
    }
    // The second `cache.match` sees the same cache and misses again.
    return Undefined;
  }

  /** The type the Fetch standard gives a `Response` built from a string body. */
  const PlainTextType := "text/plain;charset=UTF-8"

  /** Everything else, network only: any response (even not OK) is returned; a throw gives 503 `Offline`. */
  function HandleExternal(network: Fetch): (r: Served)
    ensures r.Respond?
    ensures network.Responded? ==> r.response == network.response
    ensures network.Threw? ==> r.response == Response(503, Some(PlainTextType), PlainText("Offline"))
  {
    if network.Responded? then Respond(network.response) else Respond(Response(503, Some(PlainTextType), PlainText("Offline")))
  }

  /** The fetch listener: routes the request and runs the chosen strategy. */
  method HandleFetch(caches: CacheStorage, store: OfflineStore.IndexedDBService,
                     httpMethod: string, protocol: string, sameOrigin: bool, destination: string,
                     request: Request, network: Fetch, timedOut: bool, storeOpens: bool) returns (r: Option<Served>)
    requires caches.Valid() && store.Valid()
    modifies caches
    ensures caches.Valid()
    ensures var route := Route(httpMethod, protocol, sameOrigin, destination, request.pathname);
      && (r.None? <==> route == Passthrough)
      && (route == Passthrough ==> caches.names == old(caches.names) && caches.entries == old(caches.entries))
      && (route == PageHandler ==> r.Some? && PageServed(caches, request, network, r.value))
      && (route == ApiHandler ==> r.Some? && ApiServed(caches, store, request, network, timedOut, storeOpens, r.value))
      && (route == ImageHandler ==> r.Some? && ImageServed(caches, request, network, r.value))
      && (route == ShellHandler ==> r.Some? && ShellServed(caches, request, network, r.value))
      && (route == ExternalHandler ==>
        r == Some(HandleExternal(network)) && caches.names == old(caches.names) && caches.entries == old(caches.entries))
  {
    match Route(httpMethod, protocol, sameOrigin, destination, request.pathname)
    case Passthrough => r := None;
    case PageHandler =>
      var s := HandlePage(caches, request, network);
      r := Some(s);
    case ApiHandler =>
      var s := HandleApi(caches, store, request, network, timedOut, storeOpens);
      r := Some(s);
    case ImageHandler =>
      var s := HandleImage(caches, request, network);
      r := Some(s);
    case ShellHandler =>
      var s := HandleShell(caches, request, network);
      r := Some(s);
    case ExternalHandler =>
      r := Some(HandleExternal(network));
  }

  // ---------------------------------------------------------------- offline-store fallback

  const NovelsPrefix := "/api/novels/"

  /** The longest prefix of `s` without a `/`. */
  function Segment(s: string): (r: string)
    ensures '/' !in r && StartsWith(s, r)
    ensures |r| < |s| ==> s[|r|] == '/'
  {
    if s == [] || s[0] == '/' then []
    else
      var t := Segment(s[1..]);
      assert s[..|t| + 1] == [s[0]] + s[1..][..|t|];
      [s[0]] + t
  }

  /** `pathname.match(/\/api\/novels\/([^/]+)/)?.[1]`: the leftmost match. */
  function NovelIdOf(path: string): (r: Option<string>)
    ensures r.Some? ==> |r.value| >= 1 && '/' !in r.value
    decreases |path|
  {
    if StartsWith(path, NovelsPrefix) && |path| > |NovelsPrefix| && path[|NovelsPrefix|] != '/' then
      Some(Segment(path[|NovelsPrefix|..]))
    else if path == [] then None
    else NovelIdOf(path[1..])
  }

  lemma {:induction false} SegmentOf(id: string, rest: string)
    requires '/' !in id
    requires rest == [] || rest[0] == '/'
    ensures Segment(id + rest) == id
  {
    if id != [] {
      assert (id + rest)[1..] == id[1..] + rest;
      SegmentOf(id[1..], rest);
    }
  }

  /** The id in `/api/novels/<id>` and `/api/novels/<id>/...` is recovered exactly. */
  lemma NovelIdRoundTrip(id: string, rest: string)
    requires |id| >= 1 && '/' !in id
    requires rest == [] || rest[0] == '/'
    ensures NovelIdOf(NovelsPrefix + id + rest) == Some(id)
  {
    var path := NovelsPrefix + id + rest;
    assert path[..|NovelsPrefix|] == NovelsPrefix;
    assert path[|NovelsPrefix|..] == id + rest;
    assert path[|NovelsPrefix|] == id[0] != '/';
    assert StartsWith(path, NovelsPrefix);
    SegmentOf(id, rest);
  }

  /** The reply for a novel request when the offline store holds `novels`. */
  function NovelFallback(novels: map<string, OfflineStore.StoredNovel>, id: string): (r: Option<Response>)
    ensures r.Some? <==> id in novels
    ensures r.Some? ==> r.value == Response(200, Some("application/json"), StoreEnvelope(true, NovelRecord(novels[id]), true))
  {
    if id in novels then Some(Response(200, Some("application/json"), StoreEnvelope(true, NovelRecord(novels[id]), true)))
    else None
  }

  /**
   * What the intended `tryIndexedDBFallback` answers: null without a novel id
   * or an open store; for a chapters path, a 200 JSON envelope listing exactly
   * that novel's stored chapters, one per stored key, in ascending chapter
   * number; otherwise the novel's reply, or null when it is not stored.
   */
  ghost predicate StoreFallbackReply(path: string, store: OfflineStore.IndexedDBService, storeOpens: bool, r: Option<Response>)
    reads store
  {
    if NovelIdOf(path).None? || !storeOpens then r.None?
    else if Contains(path, "/chapters") then
      && r.Some? && r.value.status == 200 && r.value.contentType == Some("application/json")
      && r.value.body.StoreEnvelope? && r.value.body.success && r.value.body.fromCache
      && r.value.body.data.ChapterList?
      && Sorting.SortedAsc(r.value.body.data.chapters, (c: OfflineStore.StoredChapter) => c.chapterNumber)
      && (forall c :: c in r.value.body.data.chapters <==> c in store.chapters.Values && c.novelId == NovelIdOf(path).value)
      && |r.value.body.data.chapters| == |store.ChapterKeysOf({NovelIdOf(path).value})|
    else r == NovelFallback(store.novels, NovelIdOf(path).value)
  }

  /**
   * `tryIndexedDBFallback` as the evidently intended behaviour: the chapters
   * of the novel in key order (ascending chapter number), or the novel record
   * when present, else null; a path without a novel id or a store that cannot
   * be opened gives null.
   */
  method TryStoreFallback(path: string, store: OfflineStore.IndexedDBService, storeOpens: bool) returns (r: Option<Response>)
    requires store.Valid()
    ensures StoreFallbackReply(path, store, storeOpens, r)
  {
    var id := NovelIdOf(path);
    if id.None? || !storeOpens {
      return None;
    }
    if Contains(path, "/chapters") {
      var list := store.GetChaptersByNovel(id.value);
      return Some(Response(200, Some("application/json"), StoreEnvelope(true, ChapterList(list), true)));
    }
    return NovelFallback(store.novels, id.value);
  }

  /**
   * `tryIndexedDBFallback` as written: the store requests are awaited as if
   * they were promises, so `chapters` and `novel` are the request objects
   * themselves. Serialised they are `{}`, and the novel test always passes.
   */
  function TryStoreFallbackAsWritten(path: string, storeOpens: bool): (r: Option<Response>)
    ensures r.Some? <==> NovelIdOf(path).Some? && storeOpens
    ensures r.Some? ==> r.value == Response(200, Some("application/json"), StoreEnvelope(true, EmptyObject, true))
  {
    if NovelIdOf(path).None? || !storeOpens then None
    else Some(Response(200, Some("application/json"), StoreEnvelope(true, EmptyObject, true)))
  }

  /**
   * The discrepancy: for `/api/novels/n1` with an empty store, the code as
   * written answers 200 with empty data, while the intended reply is null
   * (so the handler goes on to its 503 error).
   */
  lemma AsWrittenAnswersForMissingNovel()
    ensures TryStoreFallbackAsWritten("/api/novels/n1", true).Some?
    ensures NovelFallback(map[], "n1").None?
  {
    NovelIdRoundTrip("n1", "");
    assert NovelsPrefix + "n1" + "" == "/api/novels/n1";
  }
}
