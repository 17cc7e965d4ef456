/** `Server7Parser`: the reply of the search endpoint at 172.16.50.7 is scanned for
    `"href":…,"size":…` records, and each usable record is added in place to the
    caller's result list — folders at the front, files at the back, never a url twice. */
module Server7 {
  import opened Text
  import opened Lists
  import opened Catalog
  import opened Relevance
  import opened UrlFix

  /** One match of the parser's pattern: its `href` group and its `size` group
      ("null" for a folder). */
  datatype Match = Match(href: string, size: string)

  /** The caller's mutable `results` list. */
  class ResultList {
    var items: seq<Anime>

    constructor(initial: seq<Anime>)
      ensures items == initial
    {
      items := initial;
    }
  }

  // ---------------------------------------------------------------------------
  // The parser's own `isIgnored`

  /** The query exemption of this variant: the query, untrimmed and non-empty, equals
      a tag without its first character, ignoring case. */
  predicate QueryIsTag(query: string) {
    query != [] &&
    exists i | 0 <= i < |UploaderTags| :: |UploaderTags[i]| >= 1 && EqualsIgnoreCase(UploaderTags[i][1..], query)
  }

  /** `Server7Parser.isIgnored(text, query)`. */
  predicate IsIgnored7(text: string, query: string) {
    if HasChrome(text) then true
    else if HasUploaderTag(text) then !QueryIsTag(query)
    else false
  }

  /** The two noise filters disagree on a query written with the tag's dash, or with
      surrounding blanks: only the search filter trims and strips a leading '-'. */
  lemma IgnoredVariantsDiffer()
    ensures IsIgnored7("Up-YIFY", "-YIFY") && !IsIgnored("Up-YIFY", "-YIFY")
    ensures IsIgnored7("Up-YIFY", " -yify ") && !IsIgnored("Up-YIFY", " -yify ")
    ensures !IsIgnored7("Up-YIFY", "yify")
  {
    TagException();
    NoChromeInUpYify();
    UpYifyTagged();
    QueryIsTagCases();
  }

  lemma UpYifyTagged()
    ensures HasUploaderTag("Up-YIFY")
  {
    assert TaggedWith("Up-YIFY", UploaderTags[7]) by {
      assert LowerStr("Up-YIFY")[2..] == LowerStr("-YIFY");
    }
  }

  lemma QueryIsTagCases()
    ensures !QueryIsTag("-YIFY") && !QueryIsTag(" -yify ") && QueryIsTag("yify")
  {
    assert LowerStr("-YIFY")[0] == '-';
    assert LowerStr(" -yify ")[0] == ' ';
    forall i | 0 <= i < |UploaderTags|
      ensures !EqualsIgnoreCase(UploaderTags[i][1..], "-YIFY")
      ensures !EqualsIgnoreCase(UploaderTags[i][1..], " -yify ")
    {
      assert LowerStr(UploaderTags[i][1..])[0] != '-';
      assert LowerStr(UploaderTags[i][1..])[0] != ' ';
    }
    assert LowerStr(UploaderTags[7][1..]) == LowerStr("yify");
  }

  // ---------------------------------------------------------------------------
  // One record

  /** Lines 16-17: backslashes become '/', the href is trimmed and runs of '/' collapse. */
  function CleanHref(raw: string): (h: string)
    ensures '\\' !in h
    ensures NoDoubleSlash(h)
  {
    var h := CollapseSlashes(Trim(ReplaceChar(raw, '\\', '/')));
    ReplaceCharRemoves(raw, '\\', '/');
    TrimKeepsChars(ReplaceChar(raw, '\\', '/'));
    CollapseSlashesNoDouble(Trim(ReplaceChar(raw, '\\', '/')));
    h
  }

  /** No two consecutive '/' in `s`. */
  predicate NoDoubleSlash(s: string) {
    forall i | 0 <= i < |s| - 1 :: !(s[i] == '/' && s[i + 1] == '/')
  }

  /** The decoded, trimmed last segment of the href with its trailing '/' removed. */
  function Title7(cleanHref: string, env: Env): string {
    Trim(DecodeOr(env, SubstringAfterLast(cleanHref, '/')))
  }

  /** Line 42: a folder's href gets a trailing '/' when it has none. */
  function FinalHref(href: string, isFolder: bool): (f: string)
    ensures isFolder ==> EndsWith(f, "/")
    ensures NoDoubleSlash(href) ==> NoDoubleSlash(f)
    ensures forall c :: c in f ==> c in href || c == '/'
    ensures StartsWith(f, href)
  {
    if EndsWith(href, "/") || isFolder then
      (if EndsWith(href, "/") then href else
         assert (href + "/")[..|href|] == href;
         href + "/")
    else href
  }

  /** Line 44: the expected cover image next to the entry, percent-encoded. */
  function Thumb7(url: string): (t: string)
    ensures ' ' !in t && '&' !in t
  {
    var t1 := Escape(url + "a_AL_.jpg", ' ', "%20");
    EscapeRemoves(url + "a_AL_.jpg", ' ', "%20", ' ');
    EscapeRemoves(t1, '&', "%26", ' ');
    EscapeRemoves(t1, '&', "%26", '&');
    Escape(t1, '&', "%26")
  }

  /** Some url already in `items` contains `part`. */
  predicate AnyUrlContains(items: seq<Anime>, part: string) {
    exists i | 0 <= i < |items| :: Contains(items[i].url, part)
  }

  /** The entry record `m` yields under `host` (lines 16-17, 27-32, 42-45): the title
      from its cleaned href, the url from the host and the href (a folder's ending in
      '/'), and the cover image next to that url. */
  function Entry7(m: Match, host: string, env: Env): (a: Anime)
    ensures a.title == Title7(DropTrailing(CleanHref(m.href), '/'), env)
    ensures StartsWith(a.url, host) && a.url[|host|..] == FinalHref(CleanHref(m.href), m.size == "null")
    ensures m.size == "null" ==> IsFolder(a)
    ensures a.thumbnail == Thumb7(a.url)
  {
    var href := CleanHref(m.href);
    var url := host + FinalHref(href, m.size == "null");
    assert url[..|host|] == host;
    assert url[|host|..] == FinalHref(href, m.size == "null");
    assert m.size == "null" ==> url[|url| - 1..] == FinalHref(href, true)[|FinalHref(href, true)| - 1..];
    Anime(Title7(DropTrailing(href, '/'), env), url, Thumb7(url))
  }

  /** The list after one pass of the loop body (lines 16-55) for record `m`. */
  function Step(items: seq<Anime>, m: Match, host: string, query: string, env: Env): seq<Anime> {
    var isFolder := m.size == "null";
    var cleanHref := DropTrailing(CleanHref(m.href), '/');
    var a := Entry7(m, host, env);
    if a.title == [] || IsIgnored7(a.title, query) then items
    else if !isFolder && AnyUrlContains(items, cleanHref) then items
    else if HasUrl(items, a.url) then items
    else if isFolder then [a] + items
    else items + [a]
  }

  /** The list after the loop has run over `ms`, in order. */
  function Parse(items: seq<Anime>, ms: seq<Match>, host: string, query: string, env: Env): seq<Anime>
    decreases |ms|
  {
    if ms == [] then items
    else Step(Parse(items, ms[..|ms| - 1], host, query, env), ms[|ms| - 1], host, query, env)
  }

  /** `parseServer7Response`: `records` are the pattern's matches in the reply, in
      order; `env.httpHost` gives "scheme://host" of `serverUrl`. */
  method ParseServer7Response(records: seq<Match>, serverUrl: string, results: ResultList,
                              query: string, env: Env)
    modifies results
    ensures env.httpHost(serverUrl).None? ==> results.items == old(results.items)
    ensures env.httpHost(serverUrl).Some? ==>
              results.items == Parse(old(results.items), records, env.httpHost(serverUrl).value, query, env)
  {
    var hostUrl := env.httpHost(serverUrl);
    if hostUrl.None? {
      return;
    }
    var host := hostUrl.value;
    var i := 0;
    while i < |records|
      invariant 0 <= i <= |records|
      invariant results.items == Parse(old(results.items), records[..i], host, query, env)
    {
      assert records[..i + 1][..i] == records[..i];
      ParseRecord(records[i], host, results, query, env);
      i := i + 1;
    }
    assert records[..|records|] == records;
  }

  /** The body of the loop (lines 16-55) for one record. */
  method ParseRecord(m: Match, host: string, results: ResultList, query: string, env: Env)
    modifies results
    ensures results.items == Step(old(results.items), m, host, query, env)
  {
    var href := CleanHref(m.href);
    var isFolder := m.size == "null";
    var cleanHrefForTitle := href;
    while EndsWith(cleanHrefForTitle, "/")
      invariant DropTrailing(cleanHrefForTitle, '/') == DropTrailing(href, '/')
      decreases |cleanHrefForTitle|
    {
      cleanHrefForTitle := cleanHrefForTitle[..|cleanHrefForTitle| - 1];
    }
    var title := Title7(cleanHrefForTitle, env);
    if title == [] || IsIgnored7(title, query) {
      return;
    }
    if !isFolder && AnyUrlContains(results.items, cleanHrefForTitle) {
      return;
    }
    var finalHref := FinalHref(href, isFolder);
    var url := host + finalHref;
    var anime := Anime(title, url, Thumb7(url));
    assert anime == Entry7(m, host, env);
    if !HasUrl(results.items, url) {
      if isFolder {
        results.items := [anime] + results.items;
      } else {
        results.items := results.items + [anime];
      }
    }
  }

  // ---------------------------------------------------------------------------
  // What the loop keeps

  /** An entry the parser may add: a non-empty title that is not noise, a url made of
      the host and a cleaned href (no backslash, no "//" after the host) and a
      percent-encoded thumbnail next to it. */
  predicate Added(a: Anime, host: string, query: string) {
    a.title != [] && !IsIgnored7(a.title, query)
    && StartsWith(a.url, host)
    && '\\' !in a.url[|host|..] && NoDoubleSlash(a.url[|host|..])
    && a.thumbnail == Thumb7(a.url)
  }

  /** One step adds at most one entry: a folder record in front, a file record at the
      back; it adds it only when its url is new, and the entry is well formed. */
  lemma StepShape(items: seq<Anime>, m: Match, host: string, query: string, env: Env)
    ensures var r := Step(items, m, host, query, env);
      || r == items
      || (m.size == "null" && |r| == |items| + 1 && r[1..] == items && r[0] == Entry7(m, host, env)
          && !HasUrl(items, r[0].url) && Added(r[0], host, query) && IsFolder(r[0]))
      || (m.size != "null" && |r| == |items| + 1 && r[..|items|] == items
          && r[|items|] == Entry7(m, host, env)
          && !HasUrl(items, r[|items|].url) && Added(r[|items|], host, query))
  {
    var r := Step(items, m, host, query, env);
    if r != items && m.size == "null" {
      assert ([r[0]] + items)[1..] == items;
    }
  }

  /** Urls stay unique across the whole pass. */
  lemma {:induction false} ParseKeepsUnique(items: seq<Anime>, ms: seq<Match>, host: string,
                                            query: string, env: Env)
    requires UniqueBy(items, UrlOf)
    ensures UniqueBy(Parse(items, ms, host, query, env), UrlOf)
    decreases |ms|
  {
    if ms != [] {
      var prev := Parse(items, ms[..|ms| - 1], host, query, env);
      ParseKeepsUnique(items, ms[..|ms| - 1], host, query, env);
      StepShape(prev, ms[|ms| - 1], host, query, env);
      var r := Step(prev, ms[|ms| - 1], host, query, env);
      if r != prev {
        if ms[|ms| - 1].size == "null" {
          forall i, j | 0 <= i < j < |r| ensures r[i].url != r[j].url {
            if i == 0 {
              assert r[j] == prev[j - 1];
            } else {
              assert r[i] == prev[i - 1] && r[j] == prev[j - 1];
            }
          }
        } else {
          forall i, j | 0 <= i < j < |r| ensures r[i].url != r[j].url {
            assert r[i] == prev[i];
            if j < |prev| {
              assert r[j] == prev[j];
            }
          }
        }
      }
    }
  }

  /** Entries already in the list are never removed and keep their relative order;
      every other entry of the result is well formed and is the entry of one of the
      records. */
  lemma {:induction false} ParseKeepsOld(items: seq<Anime>, ms: seq<Match>, host: string,
                                         query: string, env: Env)
    ensures Sublist(items, Parse(items, ms, host, query, env))
    ensures forall a :: a in Parse(items, ms, host, query, env) ==>
              a in items || (Added(a, host, query) && exists k :: 0 <= k < |ms| && a == Entry7(ms[k], host, env))
    ensures |Parse(items, ms, host, query, env)| <= |items| + |ms|
    decreases |ms|
  {
    if ms == [] {
      SublistRefl(items);
    } else {
      var prev := Parse(items, ms[..|ms| - 1], host, query, env);
      ParseKeepsOld(items, ms[..|ms| - 1], host, query, env);
      StepShape(prev, ms[|ms| - 1], host, query, env);
      var r := Step(prev, ms[|ms| - 1], host, query, env);
      if r != prev {
        if ms[|ms| - 1].size == "null" {
          SublistRefl(prev);
          assert r == [r[0]] + prev;
          assert r[1..] == prev;
          assert Sublist(prev, r);
        } else {
          SublistRefl(prev);
          SublistAppend(prev, prev, r[|prev|]);
          assert r == prev + [r[|prev|]];
        }
        SublistTransitive(items, prev, r);
      }
      ParseOrigin(items, ms, host, query, env);
    }
  }

  /** `a` is a well-formed entry and the entry of one of the records `ms`. */
  predicate FromRecord(a: Anime, ms: seq<Match>, host: string, query: string, env: Env) {
    Added(a, host, query) && exists k :: 0 <= k < |ms| && a == Entry7(ms[k], host, env)
  }

  /** One step leaves the old entries and adds only the record's own entry. */
  lemma StepOrigin(items: seq<Anime>, m: Match, host: string, query: string, env: Env)
    ensures forall a :: a in Step(items, m, host, query, env) ==>
              a in items || (Added(a, host, query) && a == Entry7(m, host, env))
  {
    StepShape(items, m, host, query, env);
    var r := Step(items, m, host, query, env);
    if r != items {
      forall a | a in r && a !in items ensures Added(a, host, query) && a == Entry7(m, host, env) {
        var k :| 0 <= k < |r| && r[k] == a;
      }
    }
  }

  lemma {:induction false} ParseOrigin(items: seq<Anime>, ms: seq<Match>, host: string,
                                       query: string, env: Env)
    ensures forall a :: a in Parse(items, ms, host, query, env) ==>
              a in items || FromRecord(a, ms, host, query, env)
    decreases |ms|
  {
    if ms != [] {
      var init := ms[..|ms| - 1];
      var prev := Parse(items, init, host, query, env);
      ParseOrigin(items, init, host, query, env);
      StepOrigin(prev, ms[|ms| - 1], host, query, env);
      forall a | a in Parse(items, ms, host, query, env) && a !in items
        ensures FromRecord(a, ms, host, query, env)
      {
        if a in prev {
          var k :| 0 <= k < |init| && a == Entry7(init[k], host, env);
          assert init[k] == ms[k];
        } else {
          assert a == Entry7(ms[|ms| - 1], host, env);
        }
      }
    }
  }

  /** A record whose title is empty or noise is skipped, whatever the list holds. */
  lemma SkipsNoise(items: seq<Anime>, m: Match, host: string, query: string, env: Env)
    requires var t := Title7(DropTrailing(CleanHref(m.href), '/'), env); t == [] || IsIgnored7(t, query)
    ensures Step(items, m, host, query, env) == items
  {
  }

  /** A file record is skipped when an existing url contains its href without the
      trailing '/'; a folder record is not subject to that test. */
  lemma SkipsCoveredFile(items: seq<Anime>, m: Match, host: string, query: string, env: Env)
    requires m.size != "null"
    requires AnyUrlContains(items, DropTrailing(CleanHref(m.href), '/'))
    ensures Step(items, m, host, query, env) == items
  {
  }
}
