/** The directory resolver of `DhakaFlix2` (`parseDir`, `isVideoFile`): a depth-bounded
    walk over listing pages that returns the video files of the first level holding
    any, newest name first. */
module Crawl {
  import opened Text
  import opened Lists
  import opened Catalog
  import opened Relevance

  /** An anchor of a listing page: its `href` attribute and its text. */
  datatype Link = Link(href: string, text: string)

  /** A fetched listing: the location it was served from and its anchors, in order. */
  datatype Page = Page(location: string, links: seq<Link>)

  /** An `SEpisode` found by the resolver; its episode number is always -1. */
  datatype Episode = Episode(url: string, name: string)

  /** The page each url serves; a url with no page is a fetch that throws. */
  type Web = map<string, Page>

  function EpisodeUrl(e: Episode): string {
    e.url
  }

  function EpisodeName(e: Episode): string {
    e.name
  }

  // ---------------------------------------------------------------------------
  // `isVideoFile`

  const VideoExtensions: seq<string> := [".mkv", ".mp4", ".avi", ".ts", ".m4v", ".webm", ".mov"]

  /** The lower-cased href ends with a video extension or holds one followed by '?'. */
  predicate IsVideoFile(href: string) {
    var h := LowerStr(href);
    exists i | 0 <= i < |VideoExtensions| ::
      EndsWith(h, VideoExtensions[i]) || Contains(h, VideoExtensions[i] + "?")
  }

  /** The test ignores case. */
  lemma VideoFileIgnoresCase(href: string)
    ensures IsVideoFile(href) <==> IsVideoFile(LowerStr(href))
  {
    assert LowerStr(LowerStr(href)) == LowerStr(href);
  }

  /** A directory link — one ending in '/' and without a query — is never a video file. */
  lemma DirectoryNotVideo(href: string)
    requires EndsWith(href, "/") && '?' !in href
    ensures !IsVideoFile(href)
  {
    var h := LowerStr(href);
    assert h[|h| - 1] == '/';
    assert '?' !in h by {
      forall k | 0 <= k < |h| ensures h[k] != '?' {
        assert href[k] != '?';
      }
    }
    forall i | 0 <= i < |VideoExtensions|
      ensures !EndsWith(h, VideoExtensions[i]) && !Contains(h, VideoExtensions[i] + "?")
    {
      var ext := VideoExtensions[i];
      assert ext[|ext| - 1] != '/';
      if |ext| <= |h| {
        assert h[|h| - |ext|..][|ext| - 1] == h[|h| - 1];
      }
      forall k | 0 <= k <= |h| - |ext| - 1 ensures !OccursAt(h, ext + "?", k) {
        assert h[k..k + |ext| + 1][|ext|] == h[k + |ext|];
        assert (ext + "?")[|ext|] == '?';
      }
    }
  }

  /** Episode files in the common containers are recognised in any case, with or
      without a query string. */
  lemma VideoFileExamples()
    ensures IsVideoFile("EP01.MKV")
    ensures IsVideoFile("movie.mp4?download=1")
    ensures !IsVideoFile("Season 1/")
  {
    assert LowerStr("EP01.MKV") == "ep01.mkv";
    assert EndsWith("ep01.mkv", VideoExtensions[0]);
    var h := LowerStr("movie.mp4?download=1");
    assert h == "movie.mp4?download=1";
    assert OccursAt(h, VideoExtensions[1] + "?", 5);
    DirectoryNotVideo("Season 1/");
  }

  // ---------------------------------------------------------------------------
  // Classifying the links of one page (the `forEach` of `parseDir`)

  /** The link is skipped outright: a parent reference, a sort query, or noise text. */
  predicate Skipped(link: Link) {
    Contains(link.href, "..") || StartsWith(link.href, "?") || IsIgnored(Trim(link.text), "")
  }

  /** The episode a link gives: a resolvable video link, named by its decoded text. */
  function FileOf(location: string, env: Env): Link -> Option<Episode> {
    (link: Link) =>
      if Skipped(link) then None
      else match env.resolve(location, link.href)
        case None => None
        case Some(absUrl) =>
          if IsVideoFile(link.href) then Some(Episode(absUrl, DecodeOr(env, Trim(link.text))))
          else None
  }

  /** The sub-directory a link gives: a resolvable non-video link whose href or
      resolved url ends in '/'. */
  function DirOf(location: string, env: Env): Link -> Option<string> {
    (link: Link) =>
      if Skipped(link) then None
      else match env.resolve(location, link.href)
        case None => None
        case Some(absUrl) =>
          if IsVideoFile(link.href) then None
          else if EndsWith(link.href, "/") || EndsWith(absUrl, "/") then Some(absUrl)
          else None
  }

  function Files(page: Page, env: Env): seq<Episode> {
    Collect(page.links, FileOf(page.location, env))
  }

  function SubDirs(page: Page, env: Env): seq<string> {
    Collect(page.links, DirOf(page.location, env))
  }

  /** `sortedBy { name }.reversed()`. */
  function NewestFirst(eps: seq<Episode>): seq<Episode> {
    Reverse(SortAsc(eps, EpisodeName))
  }

  // ---------------------------------------------------------------------------
  // The walk

  /** What `parseDir` returns for an already fetched `page` with `depth` levels left. */
  function CrawlPage(web: Web, page: Page, depth: int, env: Env): seq<Episode>
    decreases if depth < 0 then 0 else depth + 1, 0, 0
  {
    if depth < 0 then []
    else if env.httpHost(page.location).None? then []
    else
      var files := Files(page, env);
      if files != [] then NewestFirst(files)
      else NewestFirst(DistinctBy(CrawlAll(web, SubDirs(page, env), depth - 1, env), EpisodeUrl))
  }

  /** What `parseDir(url, depth)` returns when it has to fetch `url` itself. */
  function CrawlUrl(web: Web, url: string, depth: int, env: Env): seq<Episode>
    decreases if depth < 0 then 0 else depth + 1, 1, 0
  {
    if depth < 0 then []
    else if url in web then CrawlPage(web, web[url], depth, env)
    else []
  }

  /** The results for every sub-directory, flattened in link order. */
  function CrawlAll(web: Web, urls: seq<string>, depth: int, env: Env): seq<Episode>
    decreases if depth < 0 then 0 else depth + 1, 2, |urls|
  {
    if urls == [] then []
    else CrawlAll(web, urls[..|urls| - 1], depth, env) + CrawlUrl(web, urls[|urls| - 1], depth, env)
  }

  /** `parseDir(url, depth, initialDoc)`: the sub-directories are visited one after
      another, in link order. */
  method ParseDir(web: Web, url: string, depth: int, initialDoc: Option<Page>, env: Env)
    returns (episodes: seq<Episode>)
    ensures initialDoc.Some? ==> episodes == CrawlPage(web, initialDoc.value, depth, env)
    ensures initialDoc.None? ==> episodes == CrawlUrl(web, url, depth, env)
    decreases if depth < 0 then 0 else depth + 1, 0
  {
    if depth < 0 {
      return [];
    }
    var doc: Page;
    if initialDoc.Some? {
      doc := initialDoc.value;
    } else if url in web {
      doc := web[url];
    } else {
      return [];
    }
    if env.httpHost(doc.location).None? {
      return [];
    }
    var fileEpisodes, subDirs := ClassifyLinks(doc, env);
    if fileEpisodes != [] {
      return NewestFirst(fileEpisodes);
    }
    var subDirEpisodes := ParseSubDirs(web, subDirs, depth - 1, env);
    episodes := NewestFirst(DistinctBy(fileEpisodes + subDirEpisodes, EpisodeUrl));
    assert fileEpisodes + subDirEpisodes == subDirEpisodes;
  }

  /** `subDirs.map { parseDir(it, depth) }.awaitAll().flatten()`: the results of the
      sub-directories, concatenated in link order. */
  method ParseSubDirs(web: Web, subDirs: seq<string>, depth: int, env: Env)
    returns (episodes: seq<Episode>)
    ensures episodes == CrawlAll(web, subDirs, depth, env)
    decreases if depth < 0 then 0 else depth + 1, 1
  {
    episodes := [];
    for i := 0 to |subDirs|
      invariant episodes == CrawlAll(web, subDirs[..i], depth, env)
    {
      assert subDirs[..i + 1][..i] == subDirs[..i];
      var found := ParseDir(web, subDirs[i], depth, None, env);
      episodes := episodes + found;
    }
    assert subDirs[..|subDirs|] == subDirs;
  }

  /** The `forEach` over the anchors of a page: video links become episodes, and
      directory links are kept for the descent. */
  method ClassifyLinks(page: Page, env: Env) returns (fileEpisodes: seq<Episode>, subDirs: seq<string>)
    ensures fileEpisodes == Files(page, env)
    ensures subDirs == SubDirs(page, env)
  {
    fileEpisodes := [];
    subDirs := [];
    for i := 0 to |page.links|
      invariant fileEpisodes == Collect(page.links[..i], FileOf(page.location, env))
      invariant subDirs == Collect(page.links[..i], DirOf(page.location, env))
    {
      var file, dir := ClassifyLink(page.location, page.links[i], env);
      CollectSnoc(page.links, i, FileOf(page.location, env));
      CollectSnoc(page.links, i, DirOf(page.location, env));
      if file.Some? {
        fileEpisodes := fileEpisodes + [file.value];
      }
      if dir.Some? {
        subDirs := subDirs + [dir.value];
      }
    }
    assert page.links[..|page.links|] == page.links;
  }

  /** One anchor of the `forEach`: the episode or the sub-directory it gives, if any. */
  method ClassifyLink(location: string, link: Link, env: Env) returns (file: Option<Episode>, dir: Option<string>)
    ensures file == FileOf(location, env)(link)
    ensures dir == DirOf(location, env)(link)
    ensures file.None? || dir.None?
  {
    var text := Trim(link.text);
    if Contains(link.href, "..") || StartsWith(link.href, "?") || IsIgnored(text, "") {
      assert Skipped(link);
      return None, None;
    }
    assert !Skipped(link);
    var resolved := env.resolve(location, link.href);
    if resolved.None? {
      return None, None;
    }
    var absUrl := resolved.value;
    if IsVideoFile(link.href) {
      file, dir := Some(Episode(absUrl, DecodeOr(env, text))), None;
    } else if EndsWith(link.href, "/") || EndsWith(absUrl, "/") {
      file, dir := None, Some(absUrl);
    } else {
      file, dir := None, None;
    }
  }

  /** `parseDirectoryRecursive`: the walk starts on the episode page with two more
      levels below it. */
  method ParseDirectoryRecursive(web: Web, document: Page, env: Env) returns (episodes: seq<Episode>)
    ensures episodes == CrawlPage(web, document, 2, env)
  {
    episodes := ParseDir(web, document.location, 2, Some(document), env);
  }

  // ---------------------------------------------------------------------------
  // What the walk guarantees

  /** Names never increase along the result, in string order. */
  predicate NamesDescending(eps: seq<Episode>) {
    LexDescending(eps, EpisodeName)
  }

  /** The result is ordered by name, newest (largest) first, and holds exactly the
      episodes it was given; episodes that share a name come out in the reverse of
      their input order (a stable ascending sort, then `reversed()`). */
  lemma NewestFirstSpec(eps: seq<Episode>)
    ensures NamesDescending(NewestFirst(eps))
    ensures multiset(NewestFirst(eps)) == multiset(eps)
    ensures forall n :: WithKey(NewestFirst(eps), EpisodeName, n) == Reverse(WithKey(eps, EpisodeName, n))
  {
    var s := SortAsc(eps, EpisodeName);
    MultisetReverse(s);
    ReverseAscending(s, EpisodeName);
    forall n ensures WithKey(NewestFirst(eps), EpisodeName, n) == Reverse(WithKey(eps, EpisodeName, n)) {
      WithKeyReverse(s, EpisodeName, n);
      SortAscStable(eps, EpisodeName, n);
    }
  }

  lemma NewestFirstMembers(eps: seq<Episode>, e: Episode)
    requires e in NewestFirst(eps)
    ensures e in eps
  {
    NewestFirstSpec(eps);
    assert e in multiset(NewestFirst(eps));
  }

  /** A page holding any video link answers with exactly its own files, newest first,
      and no sub-directory is visited: the rest of the web does not matter. */
  lemma EarlyExit(web: Web, other: Web, page: Page, depth: int, env: Env)
    requires depth >= 0 && env.httpHost(page.location).Some? && Files(page, env) != []
    ensures CrawlPage(web, page, depth, env) == CrawlPage(other, page, depth, env)
    ensures multiset(CrawlPage(web, page, depth, env)) == multiset(Files(page, env))
    ensures NamesDescending(CrawlPage(web, page, depth, env))
  {
    NewestFirstSpec(Files(page, env));
  }

  /** A walk with no depth left, or from a page whose location is not a url, finds
      nothing. */
  lemma NothingBelowDepth(web: Web, page: Page, url: string, depth: int, env: Env)
    requires depth < 0 || env.httpHost(page.location).None?
    ensures CrawlPage(web, page, depth, env) == []
    ensures depth < 0 ==> CrawlUrl(web, url, depth, env) == []
  {
  }

  /** Every result is ordered newest first, and a page without files of its own
      returns no url twice. */
  lemma CrawlPageShape(web: Web, page: Page, depth: int, env: Env)
    ensures NamesDescending(CrawlPage(web, page, depth, env))
    ensures Files(page, env) == [] ==> UniqueBy(CrawlPage(web, page, depth, env), EpisodeUrl)
  {
    if depth >= 0 && env.httpHost(page.location).Some? {
      var files := Files(page, env);
      if files != [] {
        NewestFirstSpec(files);
      } else {
        var d := DistinctBy(CrawlAll(web, SubDirs(page, env), depth - 1, env), EpisodeUrl);
        NewestFirstSpec(d);
        UniqueByPermutation(NewestFirst(d), d, EpisodeUrl);
      }
    }
  }

  /** Every episode the walk returns comes from a video link of the start page or of
      some page of the web. */
  predicate FromPage(page: Page, e: Episode, env: Env) {
    exists j | 0 <= j < |page.links| :: FileOf(page.location, env)(page.links[j]) == Some(e)
  }

  predicate FromWeb(web: Web, e: Episode, env: Env) {
    exists u | u in web :: FromPage(web[u], e, env)
  }

  lemma {:induction false} CrawlPageSound(web: Web, page: Page, depth: int, env: Env, e: Episode)
    requires e in CrawlPage(web, page, depth, env)
    ensures FromPage(page, e, env) || FromWeb(web, e, env)
    decreases if depth < 0 then 0 else depth + 1, 0, 0
  {
    if depth >= 0 && env.httpHost(page.location).Some? {
      var files := Files(page, env);
      if files != [] {
        NewestFirstMembers(files, e);
        CollectMembers(page.links, FileOf(page.location, env));
      } else {
        var all := CrawlAll(web, SubDirs(page, env), depth - 1, env);
        var d := DistinctBy(all, EpisodeUrl);
        NewestFirstMembers(d, e);
        SublistMembers(d, all);
        CrawlAllSound(web, SubDirs(page, env), depth - 1, env, e);
      }
    }
  }

  lemma {:induction false} CrawlUrlSound(web: Web, url: string, depth: int, env: Env, e: Episode)
    requires e in CrawlUrl(web, url, depth, env)
    ensures FromWeb(web, e, env)
    decreases if depth < 0 then 0 else depth + 1, 1, 0
  {
    CrawlPageSound(web, web[url], depth, env, e);
  }

  lemma {:induction false} CrawlAllSound(web: Web, urls: seq<string>, depth: int, env: Env, e: Episode)
    requires e in CrawlAll(web, urls, depth, env)
    ensures FromWeb(web, e, env)
    decreases if depth < 0 then 0 else depth + 1, 2, |urls|
  {
    var init := urls[..|urls| - 1];
    if e in CrawlAll(web, init, depth, env) {
      CrawlAllSound(web, init, depth, env, e);
    } else {
      CrawlUrlSound(web, urls[|urls| - 1], depth, env, e);
    }
  }

  /** A returned episode is a resolved video link: its href passes `isVideoFile`. */
  lemma EpisodeFromVideoLink(page: Page, e: Episode, env: Env)
    requires FromPage(page, e, env)
    ensures exists j | 0 <= j < |page.links| ::
              IsVideoFile(page.links[j].href) && !Skipped(page.links[j])
              && env.resolve(page.location, page.links[j].href) == Some(e.url)
  {
    var j :| 0 <= j < |page.links| && FileOf(page.location, env)(page.links[j]) == Some(e);
  }
}
