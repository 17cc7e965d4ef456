/** The search side of `DhakaFlix2`: `searchSingleServer` turns one server's reply into
    entries, and `getSearchAnime` merges the replies of every search path, ranks them
    and keeps a 30-minute cache per query. */
module Search {
  import opened Text
  import opened Lists
  import opened Catalog
  import opened Relevance
  import opened UrlFix
  import opened Server7

  /** One element of the JSON `search` array: an object with a string `href`, or
      anything on which `getJSONObject(i).getString("href")` throws. */
  datatype Item = Href(href: string) | Malformed

  /** `JSONObject(body).optJSONArray("search")`: the body is not JSON, it has no
      `search` array, or the array. */
  datatype Json = NotJson | NoSearch | Search(items: seq<Item>)

  /** The reply to the search POST, read both ways the code can read it: as JSON and
      as the matches of the server-7 pattern. `Unreachable` stands for a request that
      throws or a reply without a body. */
  datatype Reply = Unreachable | Body(json: Json, records: seq<Match>)

  /** A page of `getSearchAnime`: the browse listing for an empty query, or entries. */
  datatype Page = Browse | Found(animes: seq<Anime>)

  /** Entries scoring below this are dropped unless the title starts with the query. */
  const Threshold: real := 0.15

  // ---------------------------------------------------------------------------
  // The JSON branch of `searchSingleServer`

  /** The title derived from an href: '\' made '/', trailing '/' removed, the last
      segment decoded (or kept when decoding throws) and trimmed. */
  function JsonTitle(href: string, env: Env): string {
    Trim(DecodeOr(env, SubstringAfterLast(DropTrailing(ReplaceChar(href, '\\', '/'), '/'), '/')))
  }

  /** The filter of the JSON branch: a title that is not blank, not noise, and starts
      with the query or scores at least the threshold. */
  predicate Kept(title: string, query: string) {
    !IsBlank(title) && !IsIgnored(title, query)
    && (StartsWithIgnoreCase(title, query) || Dice(LowerStr(title), LowerStr(query)) >= Threshold)
  }

  /** The url of an entry: the base url followed by the href, with a leading '/' ensured. */
  function EntryUrl(baseUrl: string, href: string): (u: string)
    ensures StartsWith(u, baseUrl + "/")
    ensures EndsWith(u, href)
    ensures |u| == |baseUrl| + |href| + (if StartsWith(href, "/") then 0 else 1)
  {
    var finalHref := if StartsWith(href, "/") then href else "/" + href;
    var u := baseUrl + finalHref;
    assert u[..|baseUrl| + 1] == baseUrl + "/" by {
      assert finalHref[0] == '/';
    }
    assert u[|u| - |href|..] == href;
    u
  }

  /** The entry made for one href, when the filter keeps it. */
  function JsonEntry(baseUrl: string, raw: string, query: string, env: Env): (r: Option<Anime>)
    ensures r.Some? <==> Kept(JsonTitle(raw, env), query)
    ensures r.Some? ==> r.value.title == JsonTitle(raw, env) && !IsBlank(r.value.title)
    ensures r.Some? ==> StartsWith(r.value.url, baseUrl + "/")
                        && EndsWith(r.value.url, ReplaceChar(raw, '\\', '/'))
    ensures r.Some? ==> |r.value.url| == |baseUrl| + |raw|
                        + (if StartsWith(ReplaceChar(raw, '\\', '/'), "/") then 0 else 1)
    ensures r.Some? ==> (!IsFolder(r.value) ==> r.value.thumbnail == "")
                        && ' ' !in r.value.thumbnail && '&' !in r.value.thumbnail
  {
    var title := JsonTitle(raw, env);
    if !Kept(title, query) then None
    else
      var url := EntryUrl(baseUrl, ReplaceChar(raw, '\\', '/'));
      Some(Anime(title, url, GetFolderThumb(baseUrl, url)))
  }

  /** The position of the first malformed item, or the length when there is none:
      the loop stops there, keeping what it has built. */
  function FirstMalformed(items: seq<Item>): (k: nat)
    ensures k <= |items|
    ensures forall j | 0 <= j < k :: items[j].Href?
    ensures k < |items| ==> items[k].Malformed?
  {
    if items == [] then 0
    else if items[0].Malformed? then 0
    else 1 + FirstMalformed(items[1..])
  }

  /** The entry an item gives: none for a malformed item. */
  function EntryOf(baseUrl: string, query: string, env: Env): Item -> Option<Anime> {
    (it: Item) => if it.Href? then JsonEntry(baseUrl, it.href, query, env) else None
  }

  /** The list the JSON branch returns for the array `items`. */
  function JsonResults(baseUrl: string, items: seq<Item>, query: string, env: Env): seq<Anime> {
    var k := FirstMalformed(items);
    Collect(items[..k], EntryOf(baseUrl, query, env))
  }

  // ---------------------------------------------------------------------------
  // The server-7 branch of `searchSingleServer`

  /** The filter of the server-7 branch: the title starts with the query or scores
      strictly above the threshold. */
  predicate Relevant7(a: Anime, query: string) {
    StartsWithIgnoreCase(a.title, query) || Dice(LowerStr(a.title), LowerStr(query)) > Threshold
  }

  /** `res.filter { Relevant7 }`. */
  function Filter7(list: seq<Anime>, query: string): (r: seq<Anime>)
    ensures |r| <= |list|
    ensures forall a :: a in r <==> a in list && Relevant7(a, query)
  {
    if list == [] then []
    else
      var prev := Filter7(list[..|list| - 1], query);
      assert list == list[..|list| - 1] + [list[|list| - 1]];
      prev + (if Relevant7(list[|list| - 1], query) then [list[|list| - 1]] else [])
  }

  /** The server-7 branch: the parser fills a fresh list, which is then filtered. */
  function Server7Results(baseUrl: string, records: seq<Match>, query: string, env: Env): seq<Anime> {
    match env.httpHost(baseUrl)
    case None => []
    case Some(host) => Filter7(Parse([], records, host, query, env), query)
  }

  // ---------------------------------------------------------------------------
  // `searchSingleServer`

  predicate IsServer7(baseUrl: string) {
    Contains(baseUrl, "172.16.50.7")
  }

  /** What `searchSingleServer` returns for `reply`. */
  function SearchResults(baseUrl: string, query: string, reply: Reply, env: Env): seq<Anime> {
    match reply
    case Unreachable => []
    case Body(json, records) =>
      if IsServer7(baseUrl) then Server7Results(baseUrl, records, query, env)
      else
        match json
        case Search(items) => JsonResults(baseUrl, items, query, env)
        case _ => []
  }

  /** `searchSingleServer`: the request is replaced by its `reply`. */
  method SearchSingleServer(baseUrl: string, query: string, reply: Reply, env: Env)
    returns (results: seq<Anime>)
    ensures results == SearchResults(baseUrl, query, reply, env)
  {
    if reply.Unreachable? {
      return [];
    }
    if IsServer7(baseUrl) {
      results := Server7Branch(baseUrl, query, reply.records, env);
      return;
    }
    if !reply.json.Search? {
      return [];
    }
    results := JsonBranch(baseUrl, query, reply.json.items, env);
  }

  /** Lines 276-280: a fresh list filled by the server-7 parser, then filtered. */
  method Server7Branch(baseUrl: string, query: string, records: seq<Match>, env: Env)
    returns (results: seq<Anime>)
    ensures results == Server7Results(baseUrl, records, query, env)
  {
    var res := new ResultList([]);
    ParseServer7Response(records, baseUrl, res, query, env);
    results := FilterRelevant(res.items, query);
  }

  /** `res.filter { … }` of line 277. */
  method FilterRelevant(parsed: seq<Anime>, query: string) returns (results: seq<Anime>)
    ensures results == Filter7(parsed, query)
  {
    results := [];
    var i := 0;
    while i < |parsed|
      invariant 0 <= i <= |parsed|
      invariant results == Filter7(parsed[..i], query)
    {
      assert parsed[..i + 1][..i] == parsed[..i];
      var relevant := IsRelevant7(parsed[i], query);
      if relevant {
        results := results + [parsed[i]];
      }
      i := i + 1;
    }
    assert parsed[..|parsed|] == parsed;
  }

  /** The predicate of line 278, with the Dice loop run only when the prefix test fails. */
  method IsRelevant7(a: Anime, query: string) returns (relevant: bool)
    ensures relevant == Relevant7(a, query)
  {
    relevant := StartsWithIgnoreCase(a.title, query);
    if !relevant {
      var d := DiceCoefficient(LowerStr(a.title), LowerStr(query));
      relevant := d > Threshold;
    }
  }

  /** Lines 282-306: the loop over the `search` array, which stops at the first item
      that is not an object with a string `href` and keeps what it has built. */
  method JsonBranch(baseUrl: string, query: string, items: seq<Item>, env: Env)
    returns (results: seq<Anime>)
    ensures results == JsonResults(baseUrl, items, query, env)
  {
    results := [];
    var i := 0;
    while i < |items| && items[i].Href?
      invariant 0 <= i <= |items|
      invariant i <= FirstMalformed(items)
      invariant results == Collect(items[..i], EntryOf(baseUrl, query, env))
    {
      var entry := JsonItem(baseUrl, query, items[i], env);
      CollectSnoc(items, i, EntryOf(baseUrl, query, env));
      if entry.Some? {
        results := results + [entry.value];
      }
      i := i + 1;
    }
  }

  /** The body of the loop for one well-formed item (lines 285-303). */
  method JsonItem(baseUrl: string, query: string, item: Item, env: Env) returns (entry: Option<Anime>)
    requires item.Href?
    ensures entry == EntryOf(baseUrl, query, env)(item)
  {
    var raw := item.href;
    var href := ReplaceChar(raw, '\\', '/');
    var cleanHrefForTitle := DropTrailing(href, '/');
    var rawTitle := SubstringAfterLast(cleanHrefForTitle, '/');
    var title := Trim(DecodeOr(env, rawTitle));
    var keep := !(IsBlank(title) || IsIgnored(title, query));
    if keep && !StartsWithIgnoreCase(title, query) {
      var d := DiceCoefficient(LowerStr(title), LowerStr(query));
      keep := d >= Threshold;
    }
    assert title == JsonTitle(raw, env);
    assert keep == Kept(title, query);
    if keep {
      var url := EntryUrl(baseUrl, href);
      return Some(Anime(title, url, GetFolderThumb(baseUrl, url)));
    }
    return None;
  }

  /** Every JSON entry passes the filter and was built from an item before the first
      malformed one; every such item that passes the filter gives an entry. */
  lemma JsonResultsSpec(baseUrl: string, items: seq<Item>, query: string, env: Env, a: Anime)
    ensures a in JsonResults(baseUrl, items, query, env) <==>
              exists j | 0 <= j < FirstMalformed(items) ::
                items[j].Href? && JsonEntry(baseUrl, items[j].href, query, env) == Some(a)
    ensures a in JsonResults(baseUrl, items, query, env) ==>
              Kept(a.title, query) && StartsWith(a.url, baseUrl + "/")
  {
    var k := FirstMalformed(items);
    CollectMembers(items[..k], EntryOf(baseUrl, query, env));
    assert forall j | 0 <= j < k :: items[..k][j] == items[j];
  }

  /** Items after a malformed one are never looked at. */
  lemma MalformedStops(baseUrl: string, items: seq<Item>, rest: seq<Item>, query: string, env: Env)
    ensures JsonResults(baseUrl, items + [Malformed] + rest, query, env)
         == JsonResults(baseUrl, items[..FirstMalformed(items)], query, env)
  {
    var all := items + [Malformed] + rest;
    var k := FirstMalformed(items);
    assert forall j | 0 <= j < |items| :: all[j] == items[j];
    assert all[|items|] == Malformed;
    FirstMalformedAt(all, k);
    assert all[..k] == items[..k];
    FirstMalformedAt(items[..k], k);
    assert items[..k][..k] == items[..k];
  }

  /** The stopping point is the one position that closes a run of well-formed items. */
  lemma FirstMalformedAt(items: seq<Item>, k: nat)
    requires k <= |items|
    requires forall j | 0 <= j < k :: items[j].Href?
    requires k < |items| ==> items[k].Malformed?
    ensures FirstMalformed(items) == k
  {
    var f := FirstMalformed(items);
    assert !(f < k);
    assert !(k < f);
  }

  /** Every server-7 entry passes the strict filter and was added by the parser. */
  lemma Server7ResultsSpec(baseUrl: string, records: seq<Match>, query: string, env: Env)
    ensures env.httpHost(baseUrl).None? ==> Server7Results(baseUrl, records, query, env) == []
    ensures env.httpHost(baseUrl).Some? ==>
              forall a :: a in Server7Results(baseUrl, records, query, env) ==>
                Relevant7(a, query) && Added(a, env.httpHost(baseUrl).value, query)
                && exists k :: 0 <= k < |records| && a == Entry7(records[k], env.httpHost(baseUrl).value, env)
    ensures UniqueBy(Server7Results(baseUrl, records, query, env), UrlOf)
  {
    if env.httpHost(baseUrl).Some? {
      var host := env.httpHost(baseUrl).value;
      var parsed := Parse([], records, host, query, env);
      ParseKeepsOld([], records, host, query, env);
      ParseKeepsUnique([], records, host, query, env);
      Filter7Sublist(parsed, query);
      UniqueBySublist(Filter7(parsed, query), parsed, UrlOf);
      assert UniqueBy(parsed, UrlOf);
    }
  }

  lemma {:induction false} Filter7Sublist(list: seq<Anime>, query: string)
    ensures Sublist(Filter7(list, query), list)
    decreases |list|
  {
    if list != [] {
      var init := list[..|list| - 1];
      var last := list[|list| - 1];
      Filter7Sublist(init, query);
      assert list == init + [last];
      SublistAppend(Filter7(init, query), init, last);
      if Relevant7(last, query) {
        assert Filter7(list, query) == Filter7(init, query) + [last];
        SublistSnoc(Filter7(init, query), init, last);
      } else {
        assert Filter7(list, query) == Filter7(init, query);
      }
    }
  }

  // ---------------------------------------------------------------------------
  // `getSearchAnime`

  /** The paths searched for a server: its root, plus two sections on DHAKA-FLIX-9
      and on DHAKA-FLIX-12. */
  function SearchPaths(serverPath: string): (paths: seq<string>)
    ensures |paths| >= 1 && paths[0] == "/" + serverPath + "/"
    ensures |paths| == (if serverPath == "DHAKA-FLIX-9" || serverPath == "DHAKA-FLIX-12" then 3 else 1)
    ensures forall p | p in paths :: StartsWith(p, "/" + serverPath + "/")
  {
    var root := "/" + serverPath + "/";
    var paths := [root]
      + (if serverPath == "DHAKA-FLIX-9"
         then [root + "Anime & Cartoon TV Series/", root + "Anime & Cartoon Movies/"] else [])
      + (if serverPath == "DHAKA-FLIX-12"
         then [root + "TV-WEB-Series/", root + "Hindi Movies/"] else []);
    assert forall s: string :: (root + s)[..|root|] == root;
    paths
  }

  /** The reply for one path; a path with no reply is a request that threw. */
  function ReplyFor(replies: map<string, Reply>, path: string): Reply {
    if path in replies then replies[path] else Unreachable
  }

  /** The replies of every path, flattened in path order. */
  function Gathered(baseUrl: string, query: string, paths: seq<string>,
                    replies: map<string, Reply>, env: Env): seq<Anime>
  {
    if paths == [] then []
    else
      Gathered(baseUrl, query, paths[..|paths| - 1], replies, env)
      + SearchResults(baseUrl, query, ReplyFor(replies, paths[|paths| - 1]), env)
  }

  /** The merge: `distinctBy { url }`, then `collapseResults`, then `sortByTitle`. */
  function Rank(all: seq<Anime>, query: string): seq<Anime> {
    SortByTitle(CollapseResults(DistinctBy(all, UrlOf)), query)
  }

  /** The search of every path and the merge, as `getSearchAnime` runs them (the
      concurrent requests taken one after another, in path order). */
  method SearchAllPaths(baseUrl: string, serverPath: string, query: string,
                        replies: map<string, Reply>, env: Env)
    returns (results: seq<Anime>)
    ensures results == Rank(Gathered(baseUrl, query, SearchPaths(serverPath), replies, env), query)
  {
    var paths := SearchPaths(serverPath);
    var all: seq<Anime> := [];
    for i := 0 to |paths|
      invariant all == Gathered(baseUrl, query, paths[..i], replies, env)
    {
      assert paths[..i + 1][..i] == paths[..i];
      var found := SearchSingleServer(baseUrl, query, ReplyFor(replies, paths[i]), env);
      all := all + found;
    }
    assert paths[..|paths|] == paths;
    results := Rank(all, query);
  }

  /** The merged list holds no url twice, only entries some path returned, and is
      ordered by non-increasing score. */
  lemma RankSound(all: seq<Anime>, query: string)
    ensures UniqueBy(Rank(all, query), UrlOf)
    ensures forall a | a in Rank(all, query) :: a in all
    ensures forall i, j | 0 <= i < j < |Rank(all, query)| ::
              Score(Rank(all, query)[i], query) >= Score(Rank(all, query)[j], query)
  {
    var d := DistinctBy(all, UrlOf);
    var c := CollapseResults(d);
    var r := Rank(all, query);
    UniqueBySublist(c, d, UrlOf);
    UniqueByPermutation(r, c, UrlOf);
    assert UniqueBy(r, UrlOf);
    SublistMembers(c, d);
    SublistMembers(d, all);
    forall a | a in r ensures a in all {
      assert a in multiset(c);
    }
  }

  /** Nothing worth keeping is lost: every folder url some path returned is in the
      merged list, and so is every file url that lies under none of the folders. */
  lemma RankComplete(all: seq<Anime>, query: string, a: Anime)
    requires a in all
    requires IsFolder(a) || forall f | f in FolderUrls(all) :: !StartsWith(a.url, f)
    ensures HasUrl(Rank(all, query), a.url)
  {
    var d := DistinctBy(all, UrlOf);
    var b := DistinctRepresentative(all, a);
    SublistMembers(d, all);
    assert FolderUrls(d) <= FolderUrls(all);
    CollapseKeepsFolders(d, b);
    SortedKeeps(CollapseResults(d), b, query);
  }

  /** `distinctBy { it.url }` keeps some entry with the url of every input entry. */
  lemma DistinctRepresentative(all: seq<Anime>, a: Anime) returns (b: Anime)
    requires a in all
    ensures b in DistinctBy(all, UrlOf) && b.url == a.url
  {
    var d := DistinctBy(all, UrlOf);
    var k :| 0 <= k < |all| && all[k] == a;
    assert HasKey(d, UrlOf, UrlOf(all[k]));
    var m :| 0 <= m < |d| && UrlOf(d[m]) == a.url;
    b := d[m];
  }

  /** The ranking keeps every entry of the collapsed list. */
  lemma SortedKeeps(c: seq<Anime>, b: Anime, query: string)
    requires b in c
    ensures HasUrl(SortByTitle(c, query), b.url)
  {
    var r := SortByTitle(c, query);
    assert b in multiset(r);
    var n :| 0 <= n < |r| && r[n] == b;
  }

  // ---------------------------------------------------------------------------
  // The query cache

  /** Line 203: a cached list younger than 30 minutes answers the query. */
  predicate Fresh(cache: map<string, seq<Anime>>, times: map<string, int>, query: string, now: int) {
    query in cache && now - (if query in times then times[query] else 0) < 1800000
  }

  /** After a list is stored at time `t`, the query is answered from the cache exactly
      until 30 minutes have passed, and the other queries are as before. */
  lemma FreshAfterStore(cache: map<string, seq<Anime>>, times: map<string, int>,
                        query: string, r: seq<Anime>, t: int, now: int, other: string)
    requires other != query
    ensures Fresh(cache[query := r], times[query := t], query, now) <==> now < t + 1800000
    ensures Fresh(cache[query := r], times[query := t], other, now) <==> Fresh(cache, times, other, now)
  {
  }

  /** One extension instance: its server and the two cache maps. */
  class Source {
    const baseUrl: string
    const serverPath: string
    var searchCache: map<string, seq<Anime>>
    var cacheTime: map<string, int>

    /** Both maps hold the same queries, and no empty list is ever cached. */
    predicate Valid()
      reads this
    {
      searchCache.Keys == cacheTime.Keys
      && forall q | q in searchCache :: searchCache[q] != []
    }

    constructor(baseUrl: string, serverPath: string)
      ensures this.baseUrl == baseUrl && this.serverPath == serverPath
      ensures searchCache == map[] && cacheTime == map[]
      ensures Valid()
    {
      this.baseUrl := baseUrl;
      this.serverPath := serverPath;
      searchCache := map[];
      cacheTime := map[];
    }

    /** `getSearchAnime`: `now` is the clock reading and `replies` the answers of the
        search paths. */
    method GetSearchAnime(query: string, now: int, replies: map<string, Reply>, env: Env)
      returns (page: Page)
      requires Valid()
      modifies this
      ensures Valid()
      ensures query == [] ==> page == Browse && unchanged(this)
      ensures query != [] && Fresh(old(searchCache), old(cacheTime), query, now) ==>
                page == Found(old(searchCache)[query]) && unchanged(this)
      ensures query != [] && !Fresh(old(searchCache), old(cacheTime), query, now) ==>
                var r := Rank(Gathered(baseUrl, query, SearchPaths(serverPath), replies, env), query);
                page == Found(r)
                && (r != [] ==> searchCache == old(searchCache)[query := r]
                                && cacheTime == old(cacheTime)[query := now])
                && (r == [] ==> unchanged(this))
    {
      if query == [] {
        return Browse;
      }
      if query in searchCache
         && now - (if query in cacheTime then cacheTime[query] else 0) < 1800000 {
        return Found(searchCache[query]);
      }
      var results := SearchAllPaths(baseUrl, serverPath, query, replies, env);
      if results != [] {
        searchCache := searchCache[query := results];
        cacheTime := cacheTime[query := now];
      }
      page := Found(results);
    }
  }
}
