/** `Filters.getUrl`: the listing url a browse request opens for the selected category,
    year, alphabet range and language. Every helper appends one path segment (or
    nothing) to the base it is given. */
module Filters {
  import opened Text
  import opened Catalog

  /** The `state` of the four select filters: indices into their option lists. */
  datatype Selection = Selection(category: int, year: int, alphabet: int, language: int)

  /** Folder names, one per index from 1; any other index selects nothing. */
  function Pick(table: seq<string>, index: int): string {
    if 1 <= index <= |table| then table[index - 1] else ""
  }

  const YearFolders: seq<string> := ["(2025)/", "(2024)/", "(2023)/", "(2022)/", "(2021)/",
    "(2020)/", "(2019)/", "(2018)/", "(2017)/", "(2016)/", "(2015)/", "(2014)/", "(2013)/",
    "(2012)/", "(2011)/", "(2010)/", "(2009) & Before/"]

  const YearFoldersSimple: seq<string> := ["2025/", "2024/", "2023/", "2022/", "2021/",
    "2020/", "2019/", "2018/", "2017/", "2016/", "2015/", "2014/", "2013/", "2012/",
    "2011/", "2010/", "2009 & Before/"]

  const YearFolders1080p: seq<string> := ["%282025%29%201080p/", "%282024%29%201080p/",
    "%282023%29%201080p/", "%282022%29%201080p/", "%282021%29%201080p/",
    "%282020%29%201080p/", "%282019%29%201080p/", "%282018%29%201080p/",
    "%282017%29%201080p/", "%282016%29%201080p/", "%282015%29%201080p/",
    "%282014%29%201080p/", "%282013%29%201080p/", "%282012%29%201080p/",
    "%282011%29%201080p/", "%282010%29%201080p/", "%282009%29%20%26%20Before/"]

  const AlphabetFolders: seq<string> := ["0-9/", "A-F/", "G-M/", "N-S/", "T-Z/"]

  const SeriesFolders: seq<string> := [
    "TV%20Series%20%E2%98%85%20%200%20%20%E2%80%94%20%209/",
    "TV%20Series%20%E2%99%A5%20%20A%20%20%E2%80%94%20%20L/",
    "TV%20Series%20%E2%99%A6%20%20M%20%20%E2%80%94%20%20R/",
    "TV%20Series%20%E2%99%A6%20%20S%20%20%E2%80%94%20%20Z/"]

  const AnimeFolders: seq<string> := [
    "Anime-TV%20Series%20%E2%98%85%20%200%20%20%E2%80%94%20%209/",
    "Anime-TV%20Series%20%E2%99%A5%20%20A%20%20%E2%80%94%20%20F/",
    "Anime-TV%20Series%20%E2%99%A5%20%20G%20%20%E2%80%94%20%20M/",
    "Anime-TV%20Series%20%E2%99%A6%20%20N%20%20%E2%80%94%20%20S/",
    "Anime-TV%20Series%20%E2%99%A6%20%20T%20%20%E2%80%94%20%20Z/"]

  const LanguageFolders: seq<string> := ["Korean/", "Chinese/", "Japanese/", "Spanish/",
    "French/", "Italian/", "German/", "Portuguese/", "Russian/", "Thai/", "Other/"]

  /** Every folder of a table is a non-empty segment ending in '/'. */
  predicate Segments(table: seq<string>) {
    forall i | 0 <= i < |table| :: |table[i]| > 0 && table[i][|table[i]| - 1] == '/'
  }

  /** A helper's result: `base` alone for an index outside the table, and `base`
      followed by a segment ending in '/' for an index inside it. */
  predicate Appends(r: string, base: string, table: seq<string>, index: int) {
    StartsWith(r, base)
    && (r == base <==> !(1 <= index <= |table|))
    && (r != base ==> EndsWith(r, "/"))
  }

  /** Appending a table's folder to `base`. */
  lemma {:induction false} AppendsPick(base: string, table: seq<string>, index: int)
    requires Segments(table)
    ensures Appends(base + Pick(table, index), base, table, index)
  {
    var r := base + Pick(table, index);
    assert r[..|base|] == base;
    if 1 <= index <= |table| {
      var s := table[index - 1];
      assert |s| > 0 && s[|s| - 1] == '/';
      assert |r| > |base|;
      assert r[|r| - 1] == '/';
      assert r[|r| - 1..] == "/";
    }
  }

  lemma TablesAreSegments()
    ensures Segments(YearFolders) && Segments(YearFoldersSimple) && Segments(YearFolders1080p)
    ensures Segments(AlphabetFolders) && Segments(SeriesFolders) && Segments(AnimeFolders)
    ensures Segments(LanguageFolders)
  {
  }

  // ---------------------------------------------------------------------------
  // The path helpers

  /** `getYearPath`. */
  function GetYearPath(base: string, index: int): (r: string)
    ensures Appends(r, base, YearFolders, index)
  {
    TablesAreSegments();
    AppendsPick(base, YearFolders, index);
    if index == 0 then base else base + Pick(YearFolders, index)
  }

  /** `getYearPathSimple`. */
  function GetYearPathSimple(base: string, index: int): (r: string)
    ensures Appends(r, base, YearFoldersSimple, index)
  {
    TablesAreSegments();
    AppendsPick(base, YearFoldersSimple, index);
    if index == 0 then base else base + Pick(YearFoldersSimple, index)
  }

  /** `getYearPath1080p`. */
  function GetYearPath1080p(base: string, index: int): (r: string)
    ensures Appends(r, base, YearFolders1080p, index)
  {
    TablesAreSegments();
    AppendsPick(base, YearFolders1080p, index);
    if index == 0 then base else base + Pick(YearFolders1080p, index)
  }

  /** `getAlphabetPath`. */
  function GetAlphabetPath(base: string, index: int): (r: string)
    ensures Appends(r, base, AlphabetFolders, index)
  {
    TablesAreSegments();
    AppendsPick(base, AlphabetFolders, index);
    base + Pick(AlphabetFolders, index)
  }

  /** `getSeriesPath`. */
  function GetSeriesPath(base: string, index: int): (r: string)
    ensures Appends(r, base, SeriesFolders, index)
  {
    TablesAreSegments();
    AppendsPick(base, SeriesFolders, index);
    base + Pick(SeriesFolders, index)
  }

  /** `getAnimePath`. */
  function GetAnimePath(base: string, index: int): (r: string)
    ensures Appends(r, base, AnimeFolders, index)
  {
    TablesAreSegments();
    AppendsPick(base, AnimeFolders, index);
    base + Pick(AnimeFolders, index)
  }

  /** `getLanguagePath`. */
  function GetLanguagePath(base: string, index: int): (r: string)
    ensures Appends(r, base, LanguageFolders, index)
  {
    TablesAreSegments();
    AppendsPick(base, LanguageFolders, index);
    base + Pick(LanguageFolders, index)
  }

  /** The year a folder names, read from its two digits at `p` (2009 & Before reads 9). */
  function YearDigits(s: string, p: nat): int
    requires p + 2 <= |s|
  {
    10 * (s[p] as int - '0' as int) + (s[p + 1] as int - '0' as int)
  }

  /** Folder k of a year table names the year 2025 - k. */
  predicate CountsDown(table: seq<string>, p: nat) {
    |table| == 17
    && forall k | 0 <= k < 17 :: p + 2 <= |table[k]| && YearDigits(table[k], p) == 25 - k
  }

  lemma YearTablesCountDown()
    ensures CountsDown(YearFolders, 3)
    ensures CountsDown(YearFoldersSimple, 2)
    ensures CountsDown(YearFolders1080p, 5)
  {
    YearFoldersCountDown();
    YearFoldersSimpleCountDown();
    YearFolders1080pCountDown();
  }

  lemma YearFoldersCountDown()
    ensures CountsDown(YearFolders, 3)
  {
  }

  lemma YearFoldersSimpleCountDown()
    ensures CountsDown(YearFoldersSimple, 2)
  {
  }

  lemma YearFolders1080pCountDown()
    ensures CountsDown(YearFolders1080p, 5)
  {
  }

  /** Two different years never lead to the same folder, in any of the year helpers. */
  lemma YearPathsDistinct(base: string, i: int, j: int)
    requires 1 <= i <= 17 && 1 <= j <= 17 && i != j
    ensures GetYearPath(base, i) != GetYearPath(base, j)
    ensures GetYearPathSimple(base, i) != GetYearPathSimple(base, j)
    ensures GetYearPath1080p(base, i) != GetYearPath1080p(base, j)
  {
    YearTablesCountDown();
    DistinctYears(base, YearFolders, i, j, 3);
    DistinctYears(base, YearFoldersSimple, i, j, 2);
    DistinctYears(base, YearFolders1080p, i, j, 5);
  }

  /** Folders naming different years give different urls. */
  lemma DistinctYears(base: string, table: seq<string>, i: int, j: int, p: nat)
    requires CountsDown(table, p)
    requires 1 <= i <= 17 && 1 <= j <= 17 && i != j
    ensures base + table[i - 1] != base + table[j - 1]
  {
    var a := base + table[i - 1];
    var b := base + table[j - 1];
    assert YearDigits(table[i - 1], p) != YearDigits(table[j - 1], p);
    assert a[|base| + p] == table[i - 1][p] && a[|base| + p + 1] == table[i - 1][p + 1];
    assert b[|base| + p] == table[j - 1][p] && b[|base| + p + 1] == table[j - 1][p + 1];
  }

  // ---------------------------------------------------------------------------
  // `getUrl`

  /** The roots of the four file servers. */
  const Flix7 := "http://172.16.50.7/DHAKA-FLIX-7/"
  const Flix9 := "http://172.16.50.9/DHAKA-FLIX-9/"
  const Flix12 := "http://172.16.50.12/DHAKA-FLIX-12/"
  const Flix14 := "http://172.16.50.14/DHAKA-FLIX-14/"

  const QueryUrl := Flix14
  const NoFilterUrl := Flix14 + "Hindi Movies/(2025)/"
  const DefaultBase := Flix14 + "Hindi%20Movies/%282025%29/"
  const English1080p := Flix14 + "English%20Movies%20%281080p%29/"
  const SouthMovies := Flix14 + "SOUTH%20INDIAN%20MOVIES/South%20Movies/"
  const SouthDubbed := Flix14 + "SOUTH%20INDIAN%20MOVIES/Hindi%20Dubbed/"
  const ForeignMovies := Flix7 + "Foreign%20Language%20Movies/"
  const TvSeries := Flix12 + "TV-WEB-Series/"
  const AnimeSeries := Flix9 + "Anime%20%26%20Cartoon%20TV%20Series/"

  /** A url on one of the file servers that names a folder. */
  predicate ServerFolder(url: string) {
    StartsWith(url, "http://172.16.50.") && EndsWith(url, "/")
  }

  /** A folder path under a server root is a server folder. */
  lemma {:induction false} UnderRoot(root: string, path: string)
    requires root == Flix7 || root == Flix9 || root == Flix12 || root == Flix14
    requires |path| > 0 && path[|path| - 1] == '/'
    ensures ServerFolder(root + path)
  {
    var u := root + path;
    assert u[..17] == root[..17];
    assert u[|u| - 1..] == [path[|path| - 1]];
  }

  /** The value of the `when (categoryIndex)` for the categories that fall through to
      the alphabet-or-year step. */
  function CategoryBase(category: int): string {
    match category
    case 0 => Flix14 + "Hindi%20Movies/"
    case 1 => Flix7 + "English%20Movies/"
    case 5 => Flix7 + "Kolkata%20Bangla%20Movies/"
    case 6 => Flix14 + "Animation%20Movies/"
    case 7 => ForeignMovies
    case 8 => TvSeries
    case 9 => Flix14 + "KOREAN%20TV%20%26%20WEB%20Series/"
    case 10 => AnimeSeries
    case 11 => Flix9 + "Documentary/"
    case 12 => Flix9 + "WWE%20%26%20AEW%20Wrestling/"
    case 13 => Flix9 + "Awards%20%26%20TV%20Shows/"
    case 14 => Flix14 + "IMDb%20Top-250%20Movies/"
    case 15 => Flix7 + "3D%20Movies/"
    case 16 => Flix14 + "Trending%20Movies/"
    case _ => DefaultBase
  }

  /** Every base url is a folder on one of the file servers. */
  lemma CategoryBaseShape(category: int)
    ensures ServerFolder(CategoryBase(category))
  {
    match category
    case 0 => UnderRoot(Flix14, "Hindi%20Movies/");
    case 1 => UnderRoot(Flix7, "English%20Movies/");
    case 5 => UnderRoot(Flix7, "Kolkata%20Bangla%20Movies/");
    case 6 => UnderRoot(Flix14, "Animation%20Movies/");
    case 7 => UnderRoot(Flix7, "Foreign%20Language%20Movies/");
    case 8 => UnderRoot(Flix12, "TV-WEB-Series/");
    case 9 => UnderRoot(Flix14, "KOREAN%20TV%20%26%20WEB%20Series/");
    case 10 => UnderRoot(Flix9, "Anime%20%26%20Cartoon%20TV%20Series/");
    case 11 => UnderRoot(Flix9, "Documentary/");
    case 12 => UnderRoot(Flix9, "WWE%20%26%20AEW%20Wrestling/");
    case 13 => UnderRoot(Flix9, "Awards%20%26%20TV%20Shows/");
    case 14 => UnderRoot(Flix14, "IMDb%20Top-250%20Movies/");
    case 15 => UnderRoot(Flix7, "3D%20Movies/");
    case 16 => UnderRoot(Flix14, "Trending%20Movies/");
    case _ => UnderRoot(Flix14, "Hindi%20Movies/%282025%29/");
  }

  /** `getUrl(query, filters)`; `None` stands for a null filter list. */
  function GetUrl(query: string, filters: Option<Selection>): string {
    if query != [] then QueryUrl
    else match filters
      case None => NoFilterUrl
      case Some(f) =>
        if f.category == 2 then
          (if f.alphabet > 0 then GetAlphabetPath(English1080p, f.alphabet)
           else GetYearPath1080p(English1080p, f.year))
        else if f.category == 3 then
          (if f.alphabet > 0 then GetAlphabetPath(SouthMovies, f.alphabet)
           else GetYearPathSimple(SouthMovies, f.year))
        else if f.category == 4 then
          (if f.alphabet > 0 then GetAlphabetPath(SouthDubbed, f.alphabet)
           else GetYearPath(SouthDubbed, f.year))
        else if f.category == 7 && f.language > 0 then GetLanguagePath(ForeignMovies, f.language)
        else if f.category == 8 && f.alphabet > 0 then GetSeriesPath(TvSeries, f.alphabet)
        else if f.category == 10 && f.alphabet > 0 then GetAnimePath(AnimeSeries, f.alphabet)
        else
          var baseUrl := CategoryBase(f.category);
          if f.alphabet > 0 then GetAlphabetPath(baseUrl, f.alphabet)
          else GetYearPath(baseUrl, f.year)
  }

  /** Every url `getUrl` builds points at one of the file servers and names a folder. */
  lemma GetUrlShape(query: string, filters: Option<Selection>)
    ensures ServerFolder(GetUrl(query, filters))
  {
    var r := GetUrl(query, filters);
    if query != [] {
      assert Flix14[..17] == "http://172.16.50.";
    } else if filters.None? {
      UnderRoot(Flix14, "Hindi Movies/(2025)/");
    } else {
      var f := filters.value;
      if f.category == 2 {
        UnderRoot(Flix14, "English%20Movies%20%281080p%29/");
        ExtendsFolder(r, English1080p);
      } else if f.category == 3 {
        UnderRoot(Flix14, "SOUTH%20INDIAN%20MOVIES/South%20Movies/");
        ExtendsFolder(r, SouthMovies);
      } else if f.category == 4 {
        UnderRoot(Flix14, "SOUTH%20INDIAN%20MOVIES/Hindi%20Dubbed/");
        ExtendsFolder(r, SouthDubbed);
      } else if f.category == 7 && f.language > 0 {
        CategoryBaseShape(7);
        ExtendsFolder(r, ForeignMovies);
      } else if f.category == 8 && f.alphabet > 0 {
        CategoryBaseShape(8);
        ExtendsFolder(r, TvSeries);
      } else if f.category == 10 && f.alphabet > 0 {
        CategoryBaseShape(10);
        ExtendsFolder(r, AnimeSeries);
      } else {
        CategoryBaseShape(f.category);
        ExtendsFolder(r, CategoryBase(f.category));
      }
    }
  }

  /** A url that extends a server folder by nothing or by a folder is a server folder. */
  lemma ExtendsFolder(r: string, base: string)
    requires ServerFolder(base)
    requires StartsWith(r, base) && (r == base || EndsWith(r, "/"))
    ensures ServerFolder(r)
  {
    assert r[..17] == base[..17];
  }

  /** A search query always opens the root of DHAKA-FLIX-14, whatever the filters;
      with no filter list the default is the Hindi (2025) folder. */
  lemma QueryOverridesFilters(query: string, f: Option<Selection>, g: Option<Selection>)
    ensures query != [] ==> GetUrl(query, f) == GetUrl(query, g) == QueryUrl
    ensures GetUrl("", None) == NoFilterUrl
  {
  }

  /** Unless a dedicated sub-index applies, a selected alphabet range wins over the
      year, whatever the year; with no alphabet range the year folder is used.  The
      English 1080p and the two South Indian categories have their own base urls and,
      for 1080p and South Movies, their own year tables. */
  lemma AlphabetBeforeYear(f: Selection, year: int)
    requires !(f.category == 7 && f.language > 0)
    requires !(f.category == 8 && f.alphabet > 0) && !(f.category == 10 && f.alphabet > 0)
    ensures f.alphabet > 0 ==> GetUrl("", Some(f)) == GetUrl("", Some(f.(year := year)))
    ensures f.category == 2 ==>
              GetUrl("", Some(f)) == if f.alphabet > 0 then GetAlphabetPath(English1080p, f.alphabet)
                                     else GetYearPath1080p(English1080p, f.year)
    ensures f.category == 3 ==>
              GetUrl("", Some(f)) == if f.alphabet > 0 then GetAlphabetPath(SouthMovies, f.alphabet)
                                     else GetYearPathSimple(SouthMovies, f.year)
    ensures f.category == 4 ==>
              GetUrl("", Some(f)) == if f.alphabet > 0 then GetAlphabetPath(SouthDubbed, f.alphabet)
                                     else GetYearPath(SouthDubbed, f.year)
    ensures f.category != 2 && f.category != 3 && f.category != 4 ==>
              GetUrl("", Some(f)) == if f.alphabet > 0 then GetAlphabetPath(CategoryBase(f.category), f.alphabet)
                                     else GetYearPath(CategoryBase(f.category), f.year)
  {
  }

  /** Categories 7, 8 and 10 go straight to their language, series or anime folder when
      that index is set; the year and alphabet (for 7) are then ignored. */
  lemma DedicatedSubIndex(f: Selection, year: int)
    ensures f.category == 7 && f.language > 0 ==>
              GetUrl("", Some(f)) == GetLanguagePath(ForeignMovies, f.language)
              && GetUrl("", Some(f)) == GetUrl("", Some(f.(year := year, alphabet := 0)))
    ensures f.category == 8 && f.alphabet > 0 ==>
              GetUrl("", Some(f)) == GetSeriesPath(TvSeries, f.alphabet)
              && GetUrl("", Some(f)) == GetUrl("", Some(f.(year := year)))
    ensures f.category == 10 && f.alphabet > 0 ==>
              GetUrl("", Some(f)) == GetAnimePath(AnimeSeries, f.alphabet)
              && GetUrl("", Some(f)) == GetUrl("", Some(f.(year := year)))
  {
  }

  /** A category index outside the list falls back to the Hindi (2025) folder, to
      which the year or alphabet step then appends. */
  lemma UnknownCategory(f: Selection)
    requires f.category < 0 || f.category > 16
    ensures GetUrl("", Some(f)) == (if f.alphabet > 0 then GetAlphabetPath(DefaultBase, f.alphabet)
                                    else GetYearPath(DefaultBase, f.year))
  {
    AlphabetBeforeYear(f, f.year);
    assert CategoryBase(f.category) == DefaultBase;
  }
}
