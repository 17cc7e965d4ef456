# DhakaFlix 2 search, listing and crawling core, in Dafny

DhakaFlix 2 is an anime/movie source for a media-reader app. It browses and searches
the h5ai file servers of the DhakaFlix LAN (hosts 172.16.50.7, .9, .12 and .14). This
project models the parts of the source that decide *what* is shown:

- **Search** (`getSearchAnime`, `searchSingleServer`): one search request per
  server path; the reply is parsed either as h5ai JSON or, on server 7, by the
  server-7 scanner. Results are filtered for noise and relevance, merged, collapsed
  under their folders, ranked by title and cached per query for 30 minutes.
- **Server-7 parser** (`Server7Parser.parseServer7Response`): turns matched
  `href`/`size` records into entries. Folders go in front, files at the back, and
  duplicates and files covered by a listed entry are dropped.
- **Relevance**: the bigram Dice coefficient, the noise filter (`isIgnored`), the
  title ranking (`sortByTitle`) and the folder collapse (`collapseResults`).
- **Url repair** (`fixUrl`, `getFolderThumb`).
- **Episode crawl** (`parseDir`, `parseDirectoryRecursive`, `isVideoFile`): a
  depth-bounded walk over directory listings.
- **Browse urls** (`Filters.getUrl` and its path helpers).

Modules, one file each:

| module | contents |
|---|---|
| `Text` | the Kotlin string functions the code uses: ASCII case folding, `trim`, `startsWith`/`endsWith`/`contains`, char replacement, slash collapsing, lexicographic order |
| `Lists` | `reversed`, stable `sortedBy`/`sortedByDescending`, `distinctBy`, sublists, uniqueness by key |
| `Catalog` | the `SAnime` entry (`Anime`), `Option`, the environment of foreign calls (`Env`), and `Collect` |
| `Relevance` | `diceCoefficient`, `isIgnored`, `sortByTitle`, `collapseResults` |
| `UrlFix` | `fixUrl` with its four regular-expression passes written out as scanners; `getFolderThumb` |
| `Server7` | `parseServer7Response` over a `ResultList` object, and the parser's own `isIgnored` |
| `Search` | `searchSingleServer`, the path list, the merge and rank, and the `Source` object with its two cache maps |
| `Crawl` | `isVideoFile`, `parseDir`, `parseDirectoryRecursive` |
| `Filters` | `getUrl` and the seven path helpers |

Foreign calls are parameters of the model, gathered in `Catalog.Env`:

- `URLDecoder.decode` is `decode`; `None` means it threw, and the raw text is used.
- `HttpUrl.toHttpUrlOrNull` is `httpHost`; it gives `scheme://host`, or `None` when the url is not valid.
- `HttpUrl.resolve` is `resolve`.

The network is a value as well:

- a search reply per path (`Search.Reply`);
- a directory listing per url for the crawl (`Crawl.Web`, a map from url to page).

A missing entry stands for a request that failed; the source catches that failure and returns nothing.

Behaviour of the code that a reader may not expect:

- The Dice coefficient in the code counts hits with multiplicity on the second string
  against a *set* of bigrams of the first. It divides by `max(1, n1 + n2 - 2)`.
  - It is therefore not symmetric: `Relevance.DiceAsymmetric` shows
    `Dice("aa","aaaa") == 1.5` and `Dice("aaaa","aa") == 0.5`.
  - It can exceed 1. `Relevance.DiceAtMostOne` proves that it does not when the
    second string is no longer than the first.
- The ranking has no separate band for an exact title match. A case-insensitive
  prefix match scores exactly 1.0, and a folder adds 0.5 (`Relevance.PrefixScore`).
  So a bigram score can tie with or beat a prefix match.
- The noise filter of the server-7 parser differs from the main one:
  - It compares the query *untrimmed* with the tag names without their dash.
  - The main filter trims the query and strips one leading `-` first.
  - `Server7.IgnoredVariantsDiffer` exhibits queries on which the two disagree.
- The server-7 branch keeps an entry when its Dice score is *strictly above* 0.15. The
  JSON branch drops an entry only when the score is *strictly below* 0.15. So a score
  of exactly 0.15 passes only the JSON branch.

## Model

| member | source | states |
|---|---|---|
| Text.CollapseSlashesNoDouble | src/all/dhakaflix2/src/eu/kanade/tachiyomi/animeextension/all/dhakaflix2/Server7Parser.kt:17 | replacing every run of '/' by one leaves no "//", keeps the first character and adds no character that was not there |
| Text.ReplaceCharRemoves | src/all/dhakaflix2/src/eu/kanade/tachiyomi/animeextension/all/dhakaflix2/Server7Parser.kt:16 | after replacing each backslash by '/' no backslash is left, and every character is an old one or the replacement |
| Text.TrimKeepsChars | src/all/dhakaflix2/src/eu/kanade/tachiyomi/animeextension/all/dhakaflix2/Server7Parser.kt:16 | `trim` only removes characters: every character of the result occurs in the input |
| Text.LexLeTotal | src/all/dhakaflix2/src/eu/kanade/tachiyomi/animeextension/all/dhakaflix2/DhakaFlix2.kt:514 | string order (used by `sortedBy { it.name }`) is total |
| Text.LexLeTransitive | src/all/dhakaflix2/src/eu/kanade/tachiyomi/animeextension/all/dhakaflix2/DhakaFlix2.kt:514 | string order is transitive |
| Lists.DistinctBy | src/all/dhakaflix2/src/eu/kanade/tachiyomi/animeextension/all/dhakaflix2/DhakaFlix2.kt:227 | `distinctBy { it.url }` yields a sublist with unique keys that still has every key of the input, and each element kept is the first of its key in the input |
| Lists.SortDesc | src/all/dhakaflix2/src/eu/kanade/tachiyomi/animeextension/all/dhakaflix2/DhakaFlix2.kt:324 | `sortedByDescending` yields a permutation whose keys do not increase |
| Lists.SortDescStable | src/all/dhakaflix2/src/eu/kanade/tachiyomi/animeextension/all/dhakaflix2/DhakaFlix2.kt:324 | the sort is stable: the entries with any one key keep their relative order |
| Lists.SortAsc | src/all/dhakaflix2/src/eu/kanade/tachiyomi/animeextension/all/dhakaflix2/DhakaFlix2.kt:514 | `sortedBy` yields a permutation in ascending key order |
| Lists.SortAscStable | src/all/dhakaflix2/src/eu/kanade/tachiyomi/animeextension/all/dhakaflix2/DhakaFlix2.kt:514 | `sortedBy` is stable: the elements with any one key keep their relative order |
| Lists.WithKeyReverse | src/all/dhakaflix2/src/eu/kanade/tachiyomi/animeextension/all/dhakaflix2/DhakaFlix2.kt:514 | `reversed()` reverses the order of the elements of every key |
| Lists.ReverseAscending | src/all/dhakaflix2/src/eu/kanade/tachiyomi/animeextension/all/dhakaflix2/DhakaFlix2.kt:514 | reversing an ascending list gives a descending one |
| Lists.UniqueByPermutation | src/all/dhakaflix2/src/eu/kanade/tachiyomi/animeextension/all/dhakaflix2/DhakaFlix2.kt:228 | re-ordering a list with unique urls keeps them unique |
| Catalog.CollectMembers | src/all/dhakaflix2/src/eu/kanade/tachiyomi/animeextension/all/dhakaflix2/DhakaFlix2.kt:287-306 | an entry is collected exactly when some item produces it |
| Relevance.Dice | src/all/dhakaflix2/src/eu/kanade/tachiyomi/animeextension/all/dhakaflix2/DhakaFlix2.kt:332-344 | the definition of `diceCoefficient`: the bigrams of s2, counted with repeats, that occur in the set of bigrams of s1, doubled and divided by n1 + n2 - 2 floored at 1; 0 when either string is empty; never negative |
| Relevance.DiceCoefficient | src/all/dhakaflix2/src/eu/kanade/tachiyomi/animeextension/all/dhakaflix2/DhakaFlix2.kt:332-344 | the loop over the bigrams computes `Dice`, and an empty string scores 0 |
| Relevance.DiceOfItself | src/all/dhakaflix2/src/eu/kanade/tachiyomi/animeextension/all/dhakaflix2/DhakaFlix2.kt:332-344 | a string of two or more characters scores 1 against itself, a shorter one 0 |
| Relevance.DiceNoSharedBigram | src/all/dhakaflix2/src/eu/kanade/tachiyomi/animeextension/all/dhakaflix2/DhakaFlix2.kt:339-342 | no shared bigram gives 0 |
| Relevance.DiceAtMostOne | src/all/dhakaflix2/src/eu/kanade/tachiyomi/animeextension/all/dhakaflix2/DhakaFlix2.kt:343 | the score is at most 1 when the second string is no longer than the first |
| Relevance.DiceAsymmetric | src/all/dhakaflix2/src/eu/kanade/tachiyomi/animeextension/all/dhakaflix2/DhakaFlix2.kt:337-343 | the score depends on argument order and can exceed 1 |
| Relevance.IsIgnored | src/all/dhakaflix2/src/eu/kanade/tachiyomi/animeextension/all/dhakaflix2/DhakaFlix2.kt:309-321 | the definition of the main noise filter: page chrome is noise; a title with an uploader tag is noise unless the trimmed query, without one leading '-', names a tag; its properties are the lemmas below |
| Relevance.IsIgnoredCases | src/all/dhakaflix2/src/eu/kanade/tachiyomi/animeextension/all/dhakaflix2/DhakaFlix2.kt:309-321 | page chrome is always noise; an uploader tag is noise unless the query names a tag (both directions); anything else is kept |
| Relevance.ChromeIgnored | src/all/dhakaflix2/src/eu/kanade/tachiyomi/animeextension/all/dhakaflix2/DhakaFlix2.kt:311 | titles containing "Parent Directory", "Index of" or "powered by", in any case, are noise whatever the query |
| Relevance.TagException | src/all/dhakaflix2/src/eu/kanade/tachiyomi/animeextension/all/dhakaflix2/DhakaFlix2.kt:313-318 | "Up-YIFY" is kept for the queries "YIFY", " -yify " and "-YIFY", and dropped for "Inception" |
| Relevance.Score | src/all/dhakaflix2/src/eu/kanade/tachiyomi/animeextension/all/dhakaflix2/DhakaFlix2.kt:325-328 | the definition of the ranking score: 1.0 on a case-insensitive prefix match, else the Dice score of the lower-cased strings, plus 0.5 for a folder |
| Relevance.SortByTitle | src/all/dhakaflix2/src/eu/kanade/tachiyomi/animeextension/all/dhakaflix2/DhakaFlix2.kt:323-330 | the ranking is a permutation of the list, ordered by non-increasing score |
| Relevance.SortByTitleStable | src/all/dhakaflix2/src/eu/kanade/tachiyomi/animeextension/all/dhakaflix2/DhakaFlix2.kt:324 | equal scores keep their input order |
| Relevance.PrefixScore | src/all/dhakaflix2/src/eu/kanade/tachiyomi/animeextension/all/dhakaflix2/DhakaFlix2.kt:326-327 | a case-insensitive prefix match scores 1.0, or 1.5 for a folder |
| Relevance.KeepSurvivors | src/all/dhakaflix2/src/eu/kanade/tachiyomi/animeextension/all/dhakaflix2/DhakaFlix2.kt:242-245 | the filter keeps, in order, exactly the folders and the files under no folder url |
| Relevance.CollapseResults | src/all/dhakaflix2/src/eu/kanade/tachiyomi/animeextension/all/dhakaflix2/DhakaFlix2.kt:239-246 | the collapse is a sublist that keeps exactly the folders and the files under no folder url, and no folder leaves the list unchanged |
| Relevance.CollapseKeepsFolders | src/all/dhakaflix2/src/eu/kanade/tachiyomi/animeextension/all/dhakaflix2/DhakaFlix2.kt:242-245 | every folder survives, and a file survives iff no folder url is a prefix of it |
| UrlFix.LastFrom | src/all/dhakaflix2/src/eu/kanade/tachiyomi/animeextension/all/dhakaflix2/DhakaFlix2.kt:116-117 | the position found is an occurrence with none after it, or -1 |
| UrlFix.LastIndexIgnoreCase | src/all/dhakaflix2/src/eu/kanade/tachiyomi/animeextension/all/dhakaflix2/DhakaFlix2.kt:116-117 | `lastIndexOf(…, ignoreCase = true)`: the last case-insensitive occurrence, or -1 |
| UrlFix.CutAtLastProtocolSpec | src/all/dhakaflix2/src/eu/kanade/tachiyomi/animeextension/all/dhakaflix2/DhakaFlix2.kt:116-119 | the cut keeps a suffix; a changed url starts with "http://" or "https://" in any case, and no later such marker is left |
| UrlFix.MatchIpHttp | src/all/dhakaflix2/src/eu/kanade/tachiyomi/animeextension/all/dhakaflix2/DhakaFlix2.kt:46 | a match found is four dotted groups of 1 to 3 digits (group 1), then only whitespace, then "http" |
| UrlFix.Octet | src/all/dhakaflix2/src/eu/kanade/tachiyomi/animeextension/all/dhakaflix2/DhakaFlix2.kt:46 | `\d{1,3}` matches at a position exactly when the run of digits there is 1 to 3 long, and then takes the whole run |
| UrlFix.MatchIpHttpComplete | src/all/dhakaflix2/src/eu/kanade/tachiyomi/animeextension/all/dhakaflix2/DhakaFlix2.kt:46 | every match at the start of the string, in the sense above, is the one found: the regex matches exactly when `MatchIpHttp` says so, with the same group and match end |
| UrlFix.AddressEndComplete | src/all/dhakaflix2/src/eu/kanade/tachiyomi/animeextension/all/dhakaflix2/DhakaFlix2.kt:46 | `n` dotted groups not followed by a digit are exactly what the address scanner finds |
| UrlFix.SpaceRunEndsAt | src/all/dhakaflix2/src/eu/kanade/tachiyomi/animeextension/all/dhakaflix2/DhakaFlix2.kt:46 | a whitespace run that ends at a non-space is where the `\s*` scanner stops |
| UrlFix.AddressEndSound | src/all/dhakaflix2/src/eu/kanade/tachiyomi/animeextension/all/dhakaflix2/DhakaFlix2.kt:46 | what the address scanner finds is `n` groups of one to three digits joined by '.' |
| UrlFix.SpaceRunEnd | src/all/dhakaflix2/src/eu/kanade/tachiyomi/animeextension/all/dhakaflix2/DhakaFlix2.kt:46 | `\s*` takes the maximal run of regular-expression whitespace |
| UrlFix.DigitRunEnd | src/all/dhakaflix2/src/eu/kanade/tachiyomi/animeextension/all/dhakaflix2/DhakaFlix2.kt:46 | the scanner stops at the end of a maximal run of digits |
| UrlFix.ProtocolLength | src/all/dhakaflix2/src/eu/kanade/tachiyomi/animeextension/all/dhakaflix2/DhakaFlix2.kt:47 | the length is 7 exactly when the string starts with "http://", 8 exactly when it starts with "https://", and 0 otherwise |
| UrlFix.SlashRunEnd | src/all/dhakaflix2/src/eu/kanade/tachiyomi/animeextension/all/dhakaflix2/DhakaFlix2.kt:48 | the scanner stops at the end of a maximal run of '/' |
| UrlFix.FixedUrl | src/all/dhakaflix2/src/eu/kanade/tachiyomi/animeextension/all/dhakaflix2/DhakaFlix2.kt:113-125 | the definition of the repair: a blank url unchanged, else trim, cut at the last protocol, the four regular-expression passes, then escape ' ' and '&' |
| UrlFix.FixUrl | src/all/dhakaflix2/src/eu/kanade/tachiyomi/animeextension/all/dhakaflix2/DhakaFlix2.kt:113-125 | the repair computes `FixedUrl`; a blank url comes back unchanged; any other result has no ' ' and no '&' |
| UrlFix.FixedUrlEscaped | src/all/dhakaflix2/src/eu/kanade/tachiyomi/animeextension/all/dhakaflix2/DhakaFlix2.kt:124 | the final escaping leaves neither ' ' nor '&' |
| UrlFix.EscapeRemoves | src/all/dhakaflix2/src/eu/kanade/tachiyomi/animeextension/all/dhakaflix2/DhakaFlix2.kt:124 | `replace(c, r)` with an r free of d leaves no d |
| UrlFix.GetFolderThumb | src/all/dhakaflix2/src/eu/kanade/tachiyomi/animeextension/all/dhakaflix2/DhakaFlix2.kt:346-350 | a non-folder url has no thumbnail; a folder thumbnail has no ' ' and no '&' |
| Server7.CleanHref | src/all/dhakaflix2/src/eu/kanade/tachiyomi/animeextension/all/dhakaflix2/Server7Parser.kt:16-17 | the cleaned href has no backslash and no "//" |
| Server7.FinalHref | src/all/dhakaflix2/src/eu/kanade/tachiyomi/animeextension/all/dhakaflix2/Server7Parser.kt:42 | a folder href ends in '/'; the final href extends the cleaned one with at most a '/' and keeps it free of "//" |
| Server7.Thumb7 | src/all/dhakaflix2/src/eu/kanade/tachiyomi/animeextension/all/dhakaflix2/Server7Parser.kt:44 | the thumbnail has no ' ' and no '&' |
| Server7.IsIgnored7 | src/all/dhakaflix2/src/eu/kanade/tachiyomi/animeextension/all/dhakaflix2/Server7Parser.kt:59-71 | the definition of the parser's noise filter: page chrome is noise; a tagged title is noise unless the untrimmed, non-empty query equals a tag without its dash |
| Server7.IgnoredVariantsDiffer | src/all/dhakaflix2/src/eu/kanade/tachiyomi/animeextension/all/dhakaflix2/Server7Parser.kt:65 | the parser's filter drops "Up-YIFY" for the queries "-YIFY" and " -yify ", which the main filter keeps; it keeps it for "yify" |
| Server7.ParseServer7Response | src/all/dhakaflix2/src/eu/kanade/tachiyomi/animeextension/all/dhakaflix2/Server7Parser.kt:11-57 | with an invalid server url the list is untouched; otherwise the list becomes `Parse` of the old list and the records |
| Server7.ParseRecord | src/all/dhakaflix2/src/eu/kanade/tachiyomi/animeextension/all/dhakaflix2/Server7Parser.kt:16-55 | one pass of the loop body turns the list into `Step` of it: the `continue`s leave it unchanged, otherwise the entry is put in front or at the back |
| Server7.Step | src/all/dhakaflix2/src/eu/kanade/tachiyomi/animeextension/all/dhakaflix2/Server7Parser.kt:16-55 | the definition of one pass of the loop: skip an empty or noisy title, skip a file covered by a listed url, skip a url already listed, else a folder goes in front and a file at the back |
| Server7.Parse | src/all/dhakaflix2/src/eu/kanade/tachiyomi/animeextension/all/dhakaflix2/Server7Parser.kt:15-56 | the definition of the loop: `Step` applied to each record in order |
| Server7.Entry7 | src/all/dhakaflix2/src/eu/kanade/tachiyomi/animeextension/all/dhakaflix2/Server7Parser.kt:16-45 | the entry of a record: the decoded title of its cleaned href, a url made of the host and the final href (ending in '/' for a folder), and the thumbnail next to that url |
| Server7.StepShape | src/all/dhakaflix2/src/eu/kanade/tachiyomi/animeextension/all/dhakaflix2/Server7Parser.kt:35-55 | each record leaves the list as it is, puts its own entry (`Entry7`) in front when it is a folder with a new url, or appends it when it is a file with a new url; the entry is well formed |
| Server7.StepOrigin | src/all/dhakaflix2/src/eu/kanade/tachiyomi/animeextension/all/dhakaflix2/Server7Parser.kt:35-55 | after one record the list holds only the old entries and that record's well-formed entry |
| Server7.SkipsNoise | src/all/dhakaflix2/src/eu/kanade/tachiyomi/animeextension/all/dhakaflix2/Server7Parser.kt:35 | a record with an empty or ignored title changes nothing |
| Server7.SkipsCoveredFile | src/all/dhakaflix2/src/eu/kanade/tachiyomi/animeextension/all/dhakaflix2/Server7Parser.kt:38 | a file whose cleaned href occurs in a listed url changes nothing |
| Server7.ParseKeepsUnique | src/all/dhakaflix2/src/eu/kanade/tachiyomi/animeextension/all/dhakaflix2/Server7Parser.kt:47-48 | a list with unique urls keeps them unique |
| Server7.ParseKeepsOld | src/all/dhakaflix2/src/eu/kanade/tachiyomi/animeextension/all/dhakaflix2/Server7Parser.kt:15-55 | the old entries stay in order; every new entry is well formed and is the entry (`Entry7`) of one of the records; at most one entry per record |
| Server7.ParseOrigin | src/all/dhakaflix2/src/eu/kanade/tachiyomi/animeextension/all/dhakaflix2/Server7Parser.kt:15-55 | every entry of the parsed list is old or is the well-formed entry of one of the records |
| Search.EntryUrl | src/all/dhakaflix2/src/eu/kanade/tachiyomi/animeextension/all/dhakaflix2/DhakaFlix2.kt:300-301 | the url is the base url, then a '/' and the href, and is exactly one character longer than the two when the href has no leading '/' |
| Search.JsonEntry | src/all/dhakaflix2/src/eu/kanade/tachiyomi/animeextension/all/dhakaflix2/DhakaFlix2.kt:286-303 | an item gives an entry iff its title is non-blank, not noise, and matches by prefix or by Dice >= 0.15; the entry carries that title and a url that is the base, a '/' and the href with backslashes turned into '/' (the length pins it down) |
| Search.JsonResults | src/all/dhakaflix2/src/eu/kanade/tachiyomi/animeextension/all/dhakaflix2/DhakaFlix2.kt:282-306 | the definition of the JSON branch: the entries of the items before the first malformed one, in order |
| Search.FirstMalformed | src/all/dhakaflix2/src/eu/kanade/tachiyomi/animeextension/all/dhakaflix2/DhakaFlix2.kt:287 | the position of the first item that is not a JSON object, or the length |
| Search.JsonBranch | src/all/dhakaflix2/src/eu/kanade/tachiyomi/animeextension/all/dhakaflix2/DhakaFlix2.kt:282-306 | the loop over the JSON items computes `JsonResults` and stops at the first malformed item |
| Search.JsonItem | src/all/dhakaflix2/src/eu/kanade/tachiyomi/animeextension/all/dhakaflix2/DhakaFlix2.kt:285-303 | the loop body computes the entry a well-formed item gives |
| Search.JsonResultsSpec | src/all/dhakaflix2/src/eu/kanade/tachiyomi/animeextension/all/dhakaflix2/DhakaFlix2.kt:287-303 | an entry is a result iff an item before the first malformed one produces it; every result passes the filter |
| Search.MalformedStops | src/all/dhakaflix2/src/eu/kanade/tachiyomi/animeextension/all/dhakaflix2/DhakaFlix2.kt:305 | items after a malformed item are never looked at |
| Search.Filter7 | src/all/dhakaflix2/src/eu/kanade/tachiyomi/animeextension/all/dhakaflix2/DhakaFlix2.kt:277-279 | the filter keeps exactly the entries that match by prefix or by Dice > 0.15 |
| Search.Filter7Sublist | src/all/dhakaflix2/src/eu/kanade/tachiyomi/animeextension/all/dhakaflix2/DhakaFlix2.kt:277-279 | the filter keeps order |
| Search.FilterRelevant | src/all/dhakaflix2/src/eu/kanade/tachiyomi/animeextension/all/dhakaflix2/DhakaFlix2.kt:277-279 | the filter loop computes `Filter7` |
| Search.IsRelevant7 | src/all/dhakaflix2/src/eu/kanade/tachiyomi/animeextension/all/dhakaflix2/DhakaFlix2.kt:278 | the prefix test, then the Dice loop only when it fails, decide `Relevant7` |
| Search.Server7Branch | src/all/dhakaflix2/src/eu/kanade/tachiyomi/animeextension/all/dhakaflix2/DhakaFlix2.kt:276-280 | the server-7 branch parses into an empty list and filters it |
| Search.Server7ResultsSpec | src/all/dhakaflix2/src/eu/kanade/tachiyomi/animeextension/all/dhakaflix2/DhakaFlix2.kt:276-280 | every server-7 result is relevant, well formed and the entry of one of the records, with unique urls; an invalid server url gives none |
| Search.SearchResults | src/all/dhakaflix2/src/eu/kanade/tachiyomi/animeextension/all/dhakaflix2/DhakaFlix2.kt:248-307 | the definition of one path's results: nothing for a failed request or an unparsable reply, the server-7 branch on 172.16.50.7, the JSON branch elsewhere |
| Search.SearchSingleServer | src/all/dhakaflix2/src/eu/kanade/tachiyomi/animeextension/all/dhakaflix2/DhakaFlix2.kt:248-307 | the search of one path yields `SearchResults`: nothing for a failed request, the server-7 branch on 172.16.50.7, the JSON branch elsewhere |
| Search.SearchPaths | src/all/dhakaflix2/src/eu/kanade/tachiyomi/animeextension/all/dhakaflix2/DhakaFlix2.kt:207-215 | the root path first; two more paths on DHAKA-FLIX-9 and DHAKA-FLIX-12; all under the server path |
| Search.SearchAllPaths | src/all/dhakaflix2/src/eu/kanade/tachiyomi/animeextension/all/dhakaflix2/DhakaFlix2.kt:206-229 | the merged result is `Rank` of what the paths return, in path order |
| Search.Rank | src/all/dhakaflix2/src/eu/kanade/tachiyomi/animeextension/all/dhakaflix2/DhakaFlix2.kt:227-228 | the definition of the merge: `distinctBy { it.url }`, then the folder collapse, then the title ranking |
| Search.RankSound | src/all/dhakaflix2/src/eu/kanade/tachiyomi/animeextension/all/dhakaflix2/DhakaFlix2.kt:227-228 | the ranked list has unique urls, holds only returned entries and is in non-increasing score order |
| Search.RankComplete | src/all/dhakaflix2/src/eu/kanade/tachiyomi/animeextension/all/dhakaflix2/DhakaFlix2.kt:227-228 | every returned folder url, and every file url under no returned folder, is in the ranked list |
| Search.FreshAfterStore | src/all/dhakaflix2/src/eu/kanade/tachiyomi/animeextension/all/dhakaflix2/DhakaFlix2.kt:203 | a stored list answers its query for exactly 30 minutes and leaves other queries alone |
| Search.Source.GetSearchAnime | src/all/dhakaflix2/src/eu/kanade/tachiyomi/animeextension/all/dhakaflix2/DhakaFlix2.kt:199-237 | an empty query browses; a fresh cached list is returned untouched; otherwise the ranked search is returned and stored, with the time, only when non-empty; the two maps keep the same keys and never hold an empty list |
| Crawl.IsVideoFile | src/all/dhakaflix2/src/eu/kanade/tachiyomi/animeextension/all/dhakaflix2/DhakaFlix2.kt:522-525 | the definition of the video test: the lower-cased href ends with a video extension, or holds one followed by '?' |
| Crawl.VideoFileIgnoresCase | src/all/dhakaflix2/src/eu/kanade/tachiyomi/animeextension/all/dhakaflix2/DhakaFlix2.kt:522-525 | the video test ignores case |
| Crawl.DirectoryNotVideo | src/all/dhakaflix2/src/eu/kanade/tachiyomi/animeextension/all/dhakaflix2/DhakaFlix2.kt:522-525 | an href ending in '/' without '?' is not a video |
| Crawl.VideoFileExamples | src/all/dhakaflix2/src/eu/kanade/tachiyomi/animeextension/all/dhakaflix2/DhakaFlix2.kt:524 | ".MKV" and ".mp4?…" are videos, "Season 1/" is not |
| Crawl.ClassifyLinks | src/all/dhakaflix2/src/eu/kanade/tachiyomi/animeextension/all/dhakaflix2/DhakaFlix2.kt:502-513 | the loop over the links yields the video episodes and the sub-directory urls, in link order |
| Crawl.ClassifyLink | src/all/dhakaflix2/src/eu/kanade/tachiyomi/animeextension/all/dhakaflix2/DhakaFlix2.kt:503-513 | one anchor gives the episode or the sub-directory its link stands for, never both |
| Crawl.CrawlPage | src/all/dhakaflix2/src/eu/kanade/tachiyomi/animeextension/all/dhakaflix2/DhakaFlix2.kt:496-519 | the definition of `parseDir` on a fetched page: nothing below depth 0 or without a valid location; the page's videos newest first when it has any; else the sub-directories' results one level down, de-duplicated by url, newest first |
| Crawl.CrawlUrl | src/all/dhakaflix2/src/eu/kanade/tachiyomi/animeextension/all/dhakaflix2/DhakaFlix2.kt:498 | the definition of fetching a url: its page's result, or nothing when the request fails |
| Crawl.CrawlAll | src/all/dhakaflix2/src/eu/kanade/tachiyomi/animeextension/all/dhakaflix2/DhakaFlix2.kt:516-517 | the definition of the sub-directory walk: the results of each url, concatenated in link order |
| Crawl.ParseDir | src/all/dhakaflix2/src/eu/kanade/tachiyomi/animeextension/all/dhakaflix2/DhakaFlix2.kt:496-520 | the recursive walk computes `CrawlPage` from a given page and `CrawlUrl` from a url |
| Crawl.ParseSubDirs | src/all/dhakaflix2/src/eu/kanade/tachiyomi/animeextension/all/dhakaflix2/DhakaFlix2.kt:516-517 | the loop over the sub-directories computes `CrawlAll`: their results concatenated in link order |
| Crawl.ParseDirectoryRecursive | src/all/dhakaflix2/src/eu/kanade/tachiyomi/animeextension/all/dhakaflix2/DhakaFlix2.kt:494 | the episode crawl is the walk from the document to depth 2 |
| Crawl.NewestFirstSpec | src/all/dhakaflix2/src/eu/kanade/tachiyomi/animeextension/all/dhakaflix2/DhakaFlix2.kt:514 | `sortedBy { it.name }.reversed()` is a permutation in descending name order, and episodes with equal names come out in the reverse of their input order |
| Crawl.EarlyExit | src/all/dhakaflix2/src/eu/kanade/tachiyomi/animeextension/all/dhakaflix2/DhakaFlix2.kt:514 | a page with video links returns exactly those, newest name first, without reading sub-directories |
| Crawl.NothingBelowDepth | src/all/dhakaflix2/src/eu/kanade/tachiyomi/animeextension/all/dhakaflix2/DhakaFlix2.kt:497-499 | below depth 0, or on a page without a valid location, nothing is returned |
| Crawl.CrawlPageShape | src/all/dhakaflix2/src/eu/kanade/tachiyomi/animeextension/all/dhakaflix2/DhakaFlix2.kt:514-518 | the result is in descending name order, and has unique urls when it comes from sub-directories |
| Crawl.CrawlPageSound | src/all/dhakaflix2/src/eu/kanade/tachiyomi/animeextension/all/dhakaflix2/DhakaFlix2.kt:496-519 | every episode comes from a video link of the start page or of a listed page |
| Crawl.CrawlUrlSound | src/all/dhakaflix2/src/eu/kanade/tachiyomi/animeextension/all/dhakaflix2/DhakaFlix2.kt:498 | every episode of a fetched url comes from a listed page |
| Crawl.CrawlAllSound | src/all/dhakaflix2/src/eu/kanade/tachiyomi/animeextension/all/dhakaflix2/DhakaFlix2.kt:516-517 | every episode of the sub-directory walk comes from a listed page |
| Crawl.EpisodeFromVideoLink | src/all/dhakaflix2/src/eu/kanade/tachiyomi/animeextension/all/dhakaflix2/DhakaFlix2.kt:505-511 | an episode's url is the resolved href of a non-skipped link that passes the video test |
| Filters.GetYearPath | src/all/dhakaflix2/src/eu/kanade/tachiyomi/animeextension/all/dhakaflix2/Filters.kt:77-100 | the base, extended by a folder ending in '/' exactly for the years 1 to 17 |
| Filters.GetAlphabetPath | src/all/dhakaflix2/src/eu/kanade/tachiyomi/animeextension/all/dhakaflix2/Filters.kt:102-112 | the base, extended by a folder ending in '/' exactly for the ranges 1 to 5 |
| Filters.GetSeriesPath | src/all/dhakaflix2/src/eu/kanade/tachiyomi/animeextension/all/dhakaflix2/Filters.kt:114-123 | the base, extended by a folder ending in '/' exactly for the ranges 1 to 4 |
| Filters.GetAnimePath | src/all/dhakaflix2/src/eu/kanade/tachiyomi/animeextension/all/dhakaflix2/Filters.kt:125-135 | the base, extended by a folder ending in '/' exactly for the ranges 1 to 5 |
| Filters.GetLanguagePath | src/all/dhakaflix2/src/eu/kanade/tachiyomi/animeextension/all/dhakaflix2/Filters.kt:137-153 | the base, extended by a folder ending in '/' exactly for the languages 1 to 11 |
| Filters.GetYearPathSimple | src/all/dhakaflix2/src/eu/kanade/tachiyomi/animeextension/all/dhakaflix2/Filters.kt:155-178 | the base, extended by a folder ending in '/' exactly for the years 1 to 17 |
| Filters.GetYearPath1080p | src/all/dhakaflix2/src/eu/kanade/tachiyomi/animeextension/all/dhakaflix2/Filters.kt:180-203 | the base, extended by a folder ending in '/' exactly for the years 1 to 17 |
| Filters.YearPathsDistinct | src/all/dhakaflix2/src/eu/kanade/tachiyomi/animeextension/all/dhakaflix2/Filters.kt:77-100 | different years give different urls, in all three year helpers |
| Filters.CategoryBase | src/all/dhakaflix2/src/eu/kanade/tachiyomi/animeextension/all/dhakaflix2/Filters.kt:25-67 | the definition of the base url of each category that falls through to the alphabet-or-year step, with the Hindi (2025) folder for unknown ones |
| Filters.GetUrl | src/all/dhakaflix2/src/eu/kanade/tachiyomi/animeextension/all/dhakaflix2/Filters.kt:15-75 | the definition of `getUrl`: the query url, the no-filter url, the three categories with their own helpers, the three dedicated sub-indexes, else alphabet or year under the category base |
| Filters.GetUrlShape | src/all/dhakaflix2/src/eu/kanade/tachiyomi/animeextension/all/dhakaflix2/Filters.kt:15-75 | every url is a folder on one of the 172.16.50.x servers |
| Filters.QueryOverridesFilters | src/all/dhakaflix2/src/eu/kanade/tachiyomi/animeextension/all/dhakaflix2/Filters.kt:16-18 | a query ignores the filters; no filter list gives the Hindi (2025) folder |
| Filters.AlphabetBeforeYear | src/all/dhakaflix2/src/eu/kanade/tachiyomi/animeextension/all/dhakaflix2/Filters.kt:28-74 | unless a dedicated sub-index applies, an alphabet range wins over the year; categories 2, 3 and 4 use their own base url and the 1080p, simple and plain year tables; the rest use the category base and the plain year table |
| Filters.DedicatedSubIndex | src/all/dhakaflix2/src/eu/kanade/tachiyomi/animeextension/all/dhakaflix2/Filters.kt:45-59 | categories 7, 8 and 10 go straight to their language, series or anime folder, ignoring the year |
| Filters.UnknownCategory | src/all/dhakaflix2/src/eu/kanade/tachiyomi/animeextension/all/dhakaflix2/Filters.kt:66 | an unknown category falls back to the Hindi (2025) folder |

## Left out

- TMDb enrichment (`enrichAnimes`, `fetchTmdbImage`, `cleanTitleForTmdb`): network calls to a third-party service, outside the core.
- Preferences, headers, the popular/latest listing and detail pages (`popularAnimeParse`, `animeDetailsParse`, `getMovieMedia`, `extractEpisodes`, `getVideoList`): HTML scraping and UI glue, outside the core.
- `parseEpisodeNumber`, `sortEpisodes` and `getEpisodeList`: float parsing and regular expressions over episode names, outside the core.
- Concurrency: the paths of a search, and the sub-directories of a crawl, run one after the other. Results are merged in the same order as `awaitAll` gives them. Semaphores, coroutines and the 5 s / 10 s timeouts are not modelled.
- Crawl.ParseDir: each sub-directory is crawled inside `withPermit` of one five-permit semaphore, and that crawl asks for permits for its own sub-directories while still holding its own (DhakaFlix2.kt:493, 517). With five or more sub-directories that hold no videos, all five permits are held one level down while their own sub-directories wait, so the crawl blocks and `getEpisodeList` returns an empty list after its 45 s timeout (DhakaFlix2.kt:451, 464). The model has no permits and returns the full crawl.
- The empty-query page from the parent class is abstracted to `Browse`.
- `searchAnimeRequest` calls `Filters.getUrl` with three arguments, but `getUrl` takes two. The call is not modelled; `Filters.GetUrl` follows the two-argument definition.
- Case folding covers ASCII letters only. `lowercase()` and `ignoreCase` on other letters are not modelled.
- String order is by `char` value. This agrees with the JVM's UTF-16 order below U+D800 only.
- Strings are sequences of Unicode scalar values, while Kotlin strings are sequences of UTF-16 code units. A character above U+FFFF is one element here and two in the source, so for such text the model's lengths, its bigrams, the `n1 + n2 - 2` denominator of the Dice coefficient (DhakaFlix2.kt:337-343) and the `substring(1)` of the tag names differ from the source's.
- Scores are exact `real`s, not `Double`: rounding is not modelled.
- The episode number -1 that every crawled episode gets is constant and not modelled.
- The JSON parser, `URLDecoder`, `HttpUrl` and the regular-expression engine are not modelled. They are the `Env` functions, the `Reply` values and the hand-written scanners in `UrlFix`.
- Server7.ParseServer7Response: the record matcher is not modelled; the method takes the matched records as a sequence of (href, size) pairs.
  - The size group of the pattern is written `\\\\d+` in the Kotlin string. That is the regular expression `\\d+`: a backslash followed by d's.
  - So a numeric size never matches, and in practice only folder records (`"size":null`) reach the parser.
  - The model accepts any size text and treats everything other than `null` as a file.
- Search.JsonEntry: states that a folder's thumbnail has no ' ' and no '&', but not that it is non-empty.
- Crawl.CrawlPageShape: states unique urls only for results from sub-directories. The early exit returns the page's video links as they are, and `ParseDir` does not de-duplicate them either.
