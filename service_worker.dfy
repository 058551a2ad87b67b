/** The network cache controller: the service worker's install, activate and
    fetch handlers over the cache storage, and its sync and push handlers.

    The cache storage is the list of named buckets in creation order, each a
    map from request URL to stored response; `caches.match` searches the
    buckets in that order. The network is an oracle: what it answers for the
    one request a handler makes. A `cache.put` is applied at once. */
module ServiceWorker {
  import opened Wrappers
  import opened Seqs
  import opened Text
  import opened JsonValues
  import ApiService

  const CacheName: string := "wisdom-whispers-v1"
  const UrlsToCache: seq<string> := [
    "/", "/index.html", "/static/js/bundle.js", "/static/css/main.css",
    "/manifest.json", "/icon-192.png", "/icon-512.png"]
  const OfflinePage: string := "/index.html"
  const QuoteHost: string := "random-quote.hyobb.com"
  const QuotePath: string := "/api/quote"
  const SyncTag: string := "get-new-quote"
  const NewQuoteMessage: string := "NEW_QUOTE"
  const DefaultPushBody: string := "New inspirational quote available!"

  datatype ResponseType = Basic | Cors | Opaque | OpaqueRedirect | NetworkErrorType
  datatype Response = Response(status: nat, kind: ResponseType, body: string)

  /** What the network does with a request: a response, or a rejection. */
  datatype NetResult = NetOk(response: Response) | NetFail

  datatype Destination = DocumentDest | OtherDest
  datatype Request = Request(verb: string, url: string, destination: Destination)

  datatype Bucket = Bucket(name: string, entries: map<string, Response>)

  /** A fetch event is left to the browser, or answered with a response or
      with undefined. */
  datatype Reply = PassThrough | RespondWith(response: Option<Response>)

  predicate DistinctNames(bs: seq<Bucket>) {
    forall i, j :: 0 <= i < j < |bs| ==> bs[i].name != bs[j].name
  }

  /** `caches.match(url)`: the entry of the first bucket that has one. */
  function Match(bs: seq<Bucket>, url: string): (r: Option<Response>)
    ensures r.None? <==> forall i :: 0 <= i < |bs| ==> url !in bs[i].entries
    ensures r.Some? ==> exists i :: 0 <= i < |bs| && url in bs[i].entries && r.value == bs[i].entries[url] &&
                                    forall j :: 0 <= j < i ==> url !in bs[j].entries
    decreases |bs|
  {
    if bs == [] then None
    else if url in bs[0].entries then Some(bs[0].entries[url])
    else
      Match(bs[1..], url)
  }

  /** `caches.open(name)`: the bucket list with a bucket of that name,
      appended empty when there was none. */
  function Open(bs: seq<Bucket>, name: string): (r: seq<Bucket>)
    ensures (exists i :: 0 <= i < |bs| && bs[i].name == name) ==> r == bs
    ensures (forall i :: 0 <= i < |bs| ==> bs[i].name != name) ==> r == bs + [Bucket(name, map[])]
    ensures DistinctNames(bs) ==> DistinctNames(r)
  {
    if exists i :: 0 <= i < |bs| && bs[i].name == name then bs else bs + [Bucket(name, map[])]
  }

  /** `cache.put(url, response)` on the bucket `name`, opened first. */
  function Put(bs: seq<Bucket>, name: string, url: string, response: Response): (r: seq<Bucket>)
    ensures |r| == |Open(bs, name)|
    ensures forall i :: 0 <= i < |r| ==> r[i].name == Open(bs, name)[i].name
    ensures DistinctNames(bs) ==> DistinctNames(r)
  {
    var o := Open(bs, name);
    seq(|o|, i requires 0 <= i < |o| =>
      if o[i].name == name then o[i].(entries := o[i].entries[url := response]) else o[i])
  }

  predicate IsCurrent(b: Bucket) {
    b.name == CacheName
  }

  /** Activation: every bucket whose name is not `CacheName` is deleted. */
  function Purge(bs: seq<Bucket>): seq<Bucket> {
    Filter(bs, IsCurrent)
  }

  /** After activation at most one bucket is left, the current one. */
  lemma {:induction false} PurgeLeavesCurrentOnly(bs: seq<Bucket>)
    requires DistinctNames(bs)
    ensures |Purge(bs)| <= 1
    ensures forall b :: b in Purge(bs) <==> b in bs && b.name == CacheName
    ensures DistinctNames(Purge(bs))
    decreases |bs|
  {
    if bs != [] {
      assert Purge(bs) == (if IsCurrent(bs[0]) then [bs[0]] else []) + Purge(bs[1..]);
      assert DistinctNames(bs[1..]) by {
        forall i, j | 0 <= i < j < |bs[1..]| ensures bs[1..][i].name != bs[1..][j].name {
          assert bs[1..][i] == bs[i + 1] && bs[1..][j] == bs[j + 1];
        }
      }
      PurgeLeavesCurrentOnly(bs[1..]);
      if IsCurrent(bs[0]) {
        forall k | 0 <= k < |bs[1..]| ensures !IsCurrent(bs[1..][k]) {
          assert bs[1..][k] == bs[k + 1];
        }
        FilterKeepsNone(bs[1..], IsCurrent);
      }
    }
  }

  /** After activation a lookup finds exactly what the current bucket held:
      entries of every older version are gone. */
  lemma MatchAfterPurge(bs: seq<Bucket>, url: string)
    requires DistinctNames(bs)
    ensures forall i :: 0 <= i < |bs| && bs[i].name == CacheName ==>
      Match(Purge(bs), url) == (if url in bs[i].entries then Some(bs[i].entries[url]) else None)
    ensures (forall i :: 0 <= i < |bs| ==> bs[i].name != CacheName) ==> Match(Purge(bs), url) == None
  {
    PurgeLeavesCurrentOnly(bs);
    var p := Purge(bs);
    if p != [] {
      assert p == [p[0]];
      assert p[0] in p;
    }
    forall i | 0 <= i < |bs| && bs[i].name == CacheName
      ensures Match(p, url) == (if url in bs[i].entries then Some(bs[i].entries[url]) else None)
    {
      assert bs[i] in p;
      assert p == [bs[i]];
    }
  }

  /** Some bucket named `name` holds an entry for `url`. */
  predicate Holds(bs: seq<Bucket>, name: string, url: string) {
    exists i :: 0 <= i < |bs| && bs[i].name == name && url in bs[i].entries
  }

  /** A put stores its entry in the named bucket and keeps every other one. */
  lemma PutHolds(bs: seq<Bucket>, name: string, url: string, response: Response)
    ensures Holds(Put(bs, name, url, response), name, url)
    ensures forall n, u :: Holds(bs, n, u) ==> Holds(Put(bs, name, url, response), n, u)
  {
    var o := Open(bs, name);
    var r := Put(bs, name, url, response);
    var k :| 0 <= k < |o| && o[k].name == name;
    assert r[k].name == name && url in r[k].entries;
    forall n, u | Holds(bs, n, u) ensures Holds(r, n, u) {
      var i :| 0 <= i < |bs| && bs[i].name == n && u in bs[i].entries;
      assert o[i] == bs[i];
      assert r[i].name == n && u in r[i].entries;
    }
  }

  /** A successful `cache.addAll` stores every URL in the named bucket. */
  lemma {:induction false} PutAllHolds(bs: seq<Bucket>, name: string, urls: seq<string>, network: map<string, Response>)
    requires AllFetched(urls, network)
    ensures forall u :: u in urls ==> Holds(PutAll(bs, name, urls, network), name, u)
    ensures forall n, u :: Holds(bs, n, u) ==> Holds(PutAll(bs, name, urls, network), n, u)
    decreases |urls|
  {
    if urls != [] {
      var next := Put(bs, name, urls[0], network[urls[0]]);
      PutHolds(bs, name, urls[0], network[urls[0]]);
      PutAllHolds(next, name, urls[1..], network);
      forall u | u in urls ensures Holds(PutAll(bs, name, urls, network), name, u) {
        if u != urls[0] {
          assert u in urls[1..];
        }
      }
    }
  }

  /** A put of `url` is what a later lookup of `url` finds, provided no
      bucket of another name (an older version not yet deleted) holds it. */
  lemma PutThenMatch(bs: seq<Bucket>, name: string, url: string, response: Response)
    requires DistinctNames(bs)
    requires forall i :: 0 <= i < |bs| && bs[i].name != name ==> url !in bs[i].entries
    ensures Match(Put(bs, name, url, response), url) == Some(response)
  {
    var o := Open(bs, name);
    var r := Put(bs, name, url, response);
    var k :| 0 <= k < |o| && o[k].name == name;
    assert r[k].entries[url] == response;
    var m := Match(r, url);
    var i :| 0 <= i < |r| && url in r[i].entries && m.value == r[i].entries[url] &&
             forall j :: 0 <= j < i ==> url !in r[j].entries;
  }

  /** Once activation has deleted the older versions, whatever the fetch
      handler puts is what the next lookup of that URL answers. */
  lemma PutAfterPurgeThenMatch(bs: seq<Bucket>, url: string, response: Response)
    requires DistinctNames(bs)
    ensures Match(Put(Purge(bs), CacheName, url, response), url) == Some(response)
  {
    PurgeLeavesCurrentOnly(bs);
    var p := Purge(bs);
    forall i | 0 <= i < |p| ensures p[i].name == CacheName {
      assert p[i] in p;
    }
    PutThenMatch(p, CacheName, url, response);
  }

  /** A put leaves every lookup of another URL as it was. */
  lemma PutKeepsOtherUrls(bs: seq<Bucket>, name: string, url: string, response: Response, other: string)
    requires other != url
    ensures Match(Put(bs, name, url, response), other) == Match(bs, other)
  {
    var o := Open(bs, name);
    var r := Put(bs, name, url, response);
    assert forall i :: 0 <= i < |r| ==> (other in r[i].entries <==> other in o[i].entries);
    assert forall i :: 0 <= i < |r| && other in r[i].entries ==> r[i].entries[other] == o[i].entries[other];
    MatchSameEntries(r, o, other);
    if |o| != |bs| {
      MatchAppendEmpty(bs, name, other);
    }
  }

  lemma {:induction false} MatchSameEntries(a: seq<Bucket>, b: seq<Bucket>, url: string)
    requires |a| == |b|
    requires forall i :: 0 <= i < |a| ==> (url in a[i].entries <==> url in b[i].entries)
    requires forall i :: 0 <= i < |a| && url in a[i].entries ==> a[i].entries[url] == b[i].entries[url]
    ensures Match(a, url) == Match(b, url)
    decreases |a|
  {
    if a != [] {
      MatchSameEntries(a[1..], b[1..], url);
    }
  }

  lemma {:induction false} MatchAppendEmpty(bs: seq<Bucket>, name: string, url: string)
    ensures Match(bs + [Bucket(name, map[])], url) == Match(bs, url)
    decreases |bs|
  {
    if bs != [] {
      assert (bs + [Bucket(name, map[])])[1..] == bs[1..] + [Bucket(name, map[])];
      MatchAppendEmpty(bs[1..], name, url);
    }
  }

  /** Requests to the quote services are answered network first. */
  predicate IsQuoteApi(url: string) {
    Contains(url, QuoteHost) || Contains(url, QuotePath)
  }

  /** Only a complete same-origin response is cached on the cache-first path. */
  predicate IsCacheable(response: Response) {
    response.status == 200 && response.kind == Basic
  }

  /** What `cache.addAll` demands of every response: `response.ok`, and not
      a partial (206) response, which the Cache API refuses to store. */
  predicate IsStorable(response: Response) {
    200 <= response.status <= 299 && response.status != 206
  }

  predicate HasPlaceholder(path: string) {
    Contains(path, "undefined")
  }

  /** The manifest entries that install tries to cache. */
  function Precached(): (paths: seq<string>)
    ensures forall u :: u in paths <==> u in UrlsToCache && !Contains(u, "undefined")
  {
    Filter(UrlsToCache, u => !HasPlaceholder(u))
  }

  /** `cache.addAll` puts every URL only when every fetch gives an ok,
      complete response; otherwise it rejects and stores nothing. */
  predicate AllFetched(urls: seq<string>, network: map<string, Response>) {
    forall u :: u in urls ==> u in network && IsStorable(network[u])
  }

  function PutAll(bs: seq<Bucket>, name: string, urls: seq<string>, network: map<string, Response>): (r: seq<Bucket>)
    requires AllFetched(urls, network)
    ensures DistinctNames(bs) ==> DistinctNames(r)
    decreases |urls|
  {
    if urls == [] then bs
    else PutAll(Put(bs, name, urls[0], network[urls[0]]), name, urls[1..], network)
  }

  /** The messages a sync event posts: for the quote-refresh tag and a fetched
      quote, one `NEW_QUOTE` message with it to each open client, in order. */
  function SyncPosts(tag: string, fetched: Option<Json>, clients: seq<nat>): (posts: seq<(nat, string, Json)>)
    ensures tag != SyncTag || fetched.None? ==> posts == []
    ensures tag == SyncTag && fetched.Some? ==>
      |posts| == |clients| &&
      forall i :: 0 <= i < |clients| ==> posts[i] == (clients[i], NewQuoteMessage, fetched.value)
  {
    if tag == SyncTag && fetched.Some? then
      seq(|clients|, i requires 0 <= i < |clients| => (clients[i], NewQuoteMessage, fetched.value))
    else []
  }

  /** The body of the notification a push event shows. */
  function PushBody(payload: Option<string>): (body: string)
    ensures payload.Some? ==> body == payload.value
    ensures payload.None? ==> body == DefaultPushBody
  {
    payload.GetOr(DefaultPushBody)
  }

  /** The Korean quote endpoint, on whatever origin, is served network first. */
  lemma KoreanQuoteIsNetworkFirst(origin: string)
    ensures IsQuoteApi(origin + ApiService.KoreanUrl)
  {
    ContainsSuffix(origin, ApiService.KoreanUrl);
  }

  /** The English quote endpoint matches neither pattern of the quote-API
      test, so it is served cache first. */
  lemma EnglishQuoteIsCacheFirst()
    ensures !IsQuoteApi(ApiService.EnglishUrl)
  {
    EnglishUrlLacksPair('h', 'y');
    EnglishUrlLacksPair('/', 'q');
    NotQuoteApiWithoutPairs(ApiService.EnglishUrl);
  }

  /** A URL with neither "hy" nor "/q" in it is not a quote-API URL: the host
      has "hy" and the path has "/q". */
  lemma NotQuoteApiWithoutPairs(url: string)
    requires PairAbsent(url, 'h', 'y') && PairAbsent(url, '/', 'q')
    ensures !IsQuoteApi(url)
  {
    QuoteApiPairs();
    AbsentPairNotContained(url, QuoteHost, 13);
    AbsentPairNotContained(url, QuotePath, 4);
  }

  lemma QuoteApiPairs()
    ensures |QuoteHost| == 22 && QuoteHost[13] == 'h' && QuoteHost[14] == 'y'
    ensures |QuotePath| == 10 && QuotePath[4] == '/' && QuotePath[5] == 'q'
  {
  }

  lemma EnglishUrlLacksPair(x: char, y: char)
    requires PairAbsent("https://random-", x, y) && PairAbsent("quotes-freeapi", x, y)
    requires PairAbsent(".vercel.app", x, y) && PairAbsent("/api/random", x, y)
    requires !(x == '-' && y == 'q') && !(x == 'i' && y == '.') && !(x == 'p' && y == '/')
    ensures PairAbsent(ApiService.EnglishUrl, x, y)
  {
    var scheme, name, domain, path := "https://random-", "quotes-freeapi", ".vercel.app", "/api/random";
    assert ApiService.EnglishUrl == "https://random-quotes-freeapi.vercel.app" + path;
    assert "https://random-quotes-freeapi.vercel.app" == "https://random-quotes-freeapi" + domain;
    assert "https://random-quotes-freeapi" == scheme + name;
    PairAbsentAppend(scheme, name, x, y);
    PairAbsentAppend(scheme + name, domain, x, y);
    PairAbsentAppend(scheme + name + domain, path, x, y);
  }

  class Worker {
    /** The origin that relative manifest paths resolve against. */
    const origin: string
    var caches: seq<Bucket>

    ghost predicate Valid()
      reads this
    {
      DistinctNames(caches)
    }

    constructor (origin: string, caches: seq<Bucket>)
      requires DistinctNames(caches)
      ensures this.origin == origin && this.caches == caches && Valid()
    {
      this.origin := origin;
      this.caches := caches;
    }

    function Resolve(paths: seq<string>): (urls: seq<string>)
      reads this
      ensures |urls| == |paths| && forall i :: 0 <= i < |paths| ==> urls[i] == origin + paths[i]
    {
      seq(|paths|, i requires 0 <= i < |paths| => origin + paths[i])
    }

    /** Install: open the current bucket, then cache the manifest (without
        entries holding a placeholder) if every fetch succeeds; a failure is
        swallowed and install completes. */
    method Install(network: map<string, Response>)
      requires Valid()
      modifies this
      ensures Valid()
      ensures (var withBucket := Open(old(caches), CacheName);
               var urls := Resolve(Precached());
               caches == if AllFetched(urls, network) then PutAll(withBucket, CacheName, urls, network) else withBucket)
    {
      caches := Open(caches, CacheName);
      var urls := Resolve(Precached());
      if AllFetched(urls, network) {
        caches := PutAll(caches, CacheName, urls, network);
      }
    }

    /** Activate: delete every bucket but the current one. */
    method Activate()
      requires Valid()
      modifies this
      ensures Valid()
      ensures caches == Purge(old(caches))
    {
      PurgeLeavesCurrentOnly(caches);
      caches := Purge(caches);
    }

    /** The fetch handler, given what the network would answer. `consulted`
        says whether the handler went to the network. */
    method HandleFetch(request: Request, network: NetResult) returns (reply: Reply, consulted: bool)
      requires Valid()
      modifies this
      ensures Valid()
      ensures request.verb != "GET" ==> reply == PassThrough && !consulted && caches == old(caches)
      ensures request.verb == "GET" && IsQuoteApi(request.url) ==>
        consulted &&
        (match network
         case NetOk(response) =>
           reply == RespondWith(Some(response)) && caches == Put(old(caches), CacheName, request.url, response)
         case NetFail =>
           reply == RespondWith(Match(old(caches), request.url)) && caches == old(caches))
      ensures request.verb == "GET" && !IsQuoteApi(request.url) && Match(old(caches), request.url).Some? ==>
        !consulted && reply == RespondWith(Match(old(caches), request.url)) && caches == old(caches)
      ensures request.verb == "GET" && !IsQuoteApi(request.url) && Match(old(caches), request.url).None? ==>
        consulted &&
        (match network
         case NetOk(response) =>
           reply == RespondWith(Some(response)) &&
           caches == (if IsCacheable(response) then Put(old(caches), CacheName, request.url, response) else old(caches))
         case NetFail =>
           caches == old(caches) &&
           reply == RespondWith(if request.destination == DocumentDest then Match(old(caches), origin + OfflinePage) else None))
    {
      if request.verb != "GET" {
        return PassThrough, false;
      }
      if IsQuoteApi(request.url) {
        consulted := true;
        match network {
          case NetOk(response) =>
            caches := Put(caches, CacheName, request.url, response);
            reply := RespondWith(Some(response));
          case NetFail =>
            reply := RespondWith(Match(caches, request.url));
        }
        return;
      }
      var cached := Match(caches, request.url);
      if cached.Some? {
        return RespondWith(cached), false;
      }
      consulted := true;
      match network {
        case NetOk(response) =>
          if IsCacheable(response) {
            caches := Put(caches, CacheName, request.url, response);
          }
          reply := RespondWith(Some(response));
        case NetFail =>
          if request.destination == DocumentDest {
            reply := RespondWith(Match(caches, origin + OfflinePage));
          } else {
            reply := RespondWith(None);
          }
      }
    }
  }
}
