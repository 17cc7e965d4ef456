/** Relevance filter and scorer of `DhakaFlix2`: the bigram overlap score, the
    noise filter, the ranking of results and the folder collapse. */
module Relevance {
  import opened Text
  import opened Lists
  import opened Catalog

  // ---------------------------------------------------------------------------
  // Bigram overlap (`diceCoefficient`)

  /** The two-character substring of `s` at `i`. */
  function Bigram(s: string, i: int): string
    requires 0 <= i < |s| - 1
  {
    s[i..i + 2]
  }

  /** The set of two-character substrings of `s`. */
  function Bigrams(s: string): set<string> {
    set i | 0 <= i < |s| - 1 :: Bigram(s, i)
  }

  /** How many of the first `k` bigrams of `s` (counted with multiplicity) lie in `b`. */
  function Hits(b: set<string>, s: string, k: nat): (n: nat)
    requires k == 0 || k < |s|
    ensures n <= k
  {
    if k == 0 then 0
    else Hits(b, s, k - 1) + (if Bigram(s, k - 1) in b then 1 else 0)
  }

  /** `(n).coerceAtLeast(1)`. */
  function AtLeastOne(n: int): (m: int)
    ensures m >= 1 && m >= n
  {
    if n < 1 then 1 else n
  }

  /** The value `diceCoefficient(s1, s2)` returns: the bigrams of `s2`, counted with
      multiplicity, that occur among the bigrams of `s1`, doubled and divided by
      |s1| + |s2| - 2 (at least 1).  Zero when either string is empty. */
  function Dice(s1: string, s2: string): (r: real)
    ensures r >= 0.0
  {
    if |s1| == 0 || |s2| == 0 then 0.0
    else (2 * Hits(Bigrams(s1), s2, |s2| - 1)) as real / AtLeastOne(|s1| + |s2| - 2) as real
  }

  /** `diceCoefficient`: fills a hash set with the bigrams of `s1`, then counts the
      bigrams of `s2` found in it. */
  method DiceCoefficient(s1: string, s2: string) returns (r: real)
    ensures r == Dice(s1, s2)
    ensures |s1| == 0 || |s2| == 0 ==> r == 0.0
  {
    var n1 := |s1|;
    var n2 := |s2|;
    if n1 == 0 || n2 == 0 {
      return 0.0;
    }
    var bigrams1: set<string> := {};
    for i := 0 to n1 - 1
      invariant bigrams1 == set j | 0 <= j < i :: Bigram(s1, j)
    {
      bigrams1 := bigrams1 + {Bigram(s1, i)};
    }
    var intersection := 0;
    for i := 0 to n2 - 1
      invariant intersection == Hits(bigrams1, s2, i)
    {
      var bigram := Bigram(s2, i);
      if bigram in bigrams1 {
        intersection := intersection + 1;
      }
    }
    r := (2 * intersection) as real / AtLeastOne(n1 + n2 - 2) as real;
  }

  lemma {:induction false} HitsAll(b: set<string>, s: string, k: nat)
    requires k == 0 || k < |s|
    requires forall i :: 0 <= i < k ==> Bigram(s, i) in b
    ensures Hits(b, s, k) == k
  {
    if k > 0 {
      HitsAll(b, s, k - 1);
    }
  }

  lemma {:induction false} HitsNone(b: set<string>, s: string, k: nat)
    requires k == 0 || k < |s|
    requires forall i :: 0 <= i < k ==> Bigram(s, i) !in b
    ensures Hits(b, s, k) == 0
  {
    if k > 0 {
      HitsNone(b, s, k - 1);
    }
  }

  lemma DivSelf(d: real)
    requires d > 0.0
    ensures d / d == 1.0
  {
  }

  /** A string scores 1 against itself once it has a bigram, and 0 otherwise. */
  lemma DiceOfItself(s: string)
    ensures Dice(s, s) == if |s| >= 2 then 1.0 else 0.0
  {
    if |s| >= 2 {
      forall i | 0 <= i < |s| - 1 ensures Bigram(s, i) in Bigrams(s) {
      }
      HitsAll(Bigrams(s), s, |s| - 1);
      var d := (2 * (|s| - 1)) as real;
      assert AtLeastOne(|s| + |s| - 2) as real == d;
      DivSelf(d);
    } else if |s| == 1 {
      assert Hits(Bigrams(s), s, 0) == 0;
    }
  }

  /** When no bigram of `s2` occurs in `s1` the score is 0. */
  lemma DiceNoSharedBigram(s1: string, s2: string)
    requires forall i :: 0 <= i < |s2| - 1 ==> Bigram(s2, i) !in Bigrams(s1)
    ensures Dice(s1, s2) == 0.0
  {
    if |s1| > 0 && |s2| > 0 {
      HitsNone(Bigrams(s1), s2, |s2| - 1);
    }
  }

  /** The score is not symmetric and can exceed 1: "aaaa" has three bigrams "aa",
      each found in the bigram set of "aa". */
  lemma DiceAsymmetric()
    ensures Dice("aa", "aaaa") == 1.5
    ensures Dice("aaaa", "aa") == 0.5
  {
    var b2 := Bigrams("aa");
    var b4 := Bigrams("aaaa");
    assert Bigram("aa", 0) == "aa" && Bigram("aaaa", 0) == "aa";
    assert "aa" in b2 && "aa" in b4;
    assert Hits(b2, "aaaa", 3) == 3 by {
      assert Bigram("aaaa", 1) == "aa" && Bigram("aaaa", 2) == "aa";
    }
    assert Hits(b4, "aa", 1) == 1;
  }

  /** A query no longer than the title scores at most 1. */
  lemma DiceAtMostOne(s1: string, s2: string)
    requires |s2| <= |s1|
    ensures Dice(s1, s2) <= 1.0
  {
    if |s1| > 0 && |s2| > 0 {
      var h := Hits(Bigrams(s1), s2, |s2| - 1);
      var d := AtLeastOne(|s1| + |s2| - 2);
      assert 2 * h <= d;
      assert (2 * h) as real <= d as real;
      DivideAtMostOne((2 * h) as real, d as real);
    }
  }

  lemma DivideAtMostOne(x: real, d: real)
    requires 0.0 < d && x <= d
    ensures x / d <= 1.0
  {
    assert x / d * d == x;
  }

  // ---------------------------------------------------------------------------
  // Noise filter (`isIgnored`)

  /** Strings the directory-listing pages use for their own chrome. */
  const Chrome: seq<string> := ["Parent Directory", "modern browsers", "Name", "Last modified",
    "Size", "Description", "Index of", "JavaScript", "powered by", "_h5ai"]

  /** Release-group tags that mark re-uploads. */
  const UploaderTags: seq<string> := ["-LOKI", "-LOKiHD", "-TDoc", "-Tuna", "-PSA", "-Pahe",
    "-QxR", "-YIFY", "-RARBG"]

  /** `text` contains a chrome string, ignoring case. */
  predicate HasChrome(text: string) {
    exists i | 0 <= i < |Chrome| :: ContainsIgnoreCase(text, Chrome[i])
  }

  /** `text` ends with `tag` (ignoring case) or contains `tag` followed by '.' or ' '. */
  predicate TaggedWith(text: string, tag: string) {
    EndsWithIgnoreCase(text, tag) || Contains(text, tag + ".") || Contains(text, tag + " ")
  }

  predicate HasUploaderTag(text: string) {
    exists i | 0 <= i < |UploaderTags| :: TaggedWith(text, UploaderTags[i])
  }

  /** The trimmed query, a leading '-' removed, names one of the tags. */
  predicate QueryNamesTag(query: string) {
    var cleanQuery := RemovePrefix(Trim(query), "-");
    cleanQuery != [] &&
    exists i | 0 <= i < |UploaderTags| :: EqualsIgnoreCase(RemovePrefix(UploaderTags[i], "-"), cleanQuery)
  }

  /** `isIgnored(text, query)` of `DhakaFlix2`. */
  predicate IsIgnored(text: string, query: string) {
    if HasChrome(text) then true
    else if HasUploaderTag(text) then !QueryNamesTag(query)
    else false
  }

  /** Chrome text is ignored whatever the query; otherwise a tagged title is ignored
      unless the query names a tag; anything else is kept. */
  lemma IsIgnoredCases(text: string, query: string)
    ensures HasChrome(text) ==> IsIgnored(text, query)
    ensures !HasChrome(text) && HasUploaderTag(text) ==> (IsIgnored(text, query) <==> !QueryNamesTag(query))
    ensures !HasChrome(text) && !HasUploaderTag(text) ==> !IsIgnored(text, query)
  {
  }

  /** "Parent Directory" and "Index of" in any case, and anything "powered by", are noise. */
  lemma ChromeIgnored(text: string, query: string)
    requires ContainsIgnoreCase(text, "Parent Directory") || ContainsIgnoreCase(text, "index of")
          || ContainsIgnoreCase(text, "POWERED BY")
    ensures IsIgnored(text, query)
  {
    assert LowerStr("index of") == LowerStr(Chrome[6]);
    assert LowerStr("POWERED BY") == LowerStr(Chrome[8]);
    if ContainsIgnoreCase(text, "Parent Directory") {
      assert ContainsIgnoreCase(text, Chrome[0]);
    } else if ContainsIgnoreCase(text, "index of") {
      assert ContainsIgnoreCase(text, Chrome[6]);
    } else {
      assert ContainsIgnoreCase(text, Chrome[8]);
    }
  }

  /** The tag exception: a title ending in "-YIFY" is kept for the queries "YIFY",
      " -yify " and "-YIFY", and dropped for "Inception". */
  lemma TagException()
    ensures !IsIgnored("Up-YIFY", "YIFY")
    ensures !IsIgnored("Up-YIFY", " -yify ")
    ensures !IsIgnored("Up-YIFY", "-YIFY")
    ensures IsIgnored("Up-YIFY", "Inception")
  {
    NoChromeInUpYify();
    assert TaggedWith("Up-YIFY", UploaderTags[7]) by {
      assert LowerStr("Up-YIFY")[2..] == LowerStr("-YIFY");
    }
    assert EqualsIgnoreCase(RemovePrefix(UploaderTags[7], "-"), "YIFY");
    assert Trim(" -yify ") == "-yify" by {
      assert TrimStart(" -yify ") == "-yify ";
      assert "-yify "[..5] == "-yify";
    }
    assert RemovePrefix("-yify", "-") == "yify";
    assert EqualsIgnoreCase(RemovePrefix(UploaderTags[7], "-"), "yify");
    assert Trim("-YIFY") == "-YIFY";
    assert RemovePrefix("-YIFY", "-") == "YIFY";
    assert Trim("Inception") == "Inception";
    assert RemovePrefix("Inception", "-") == "Inception";
    forall i | 0 <= i < |UploaderTags|
      ensures !EqualsIgnoreCase(RemovePrefix(UploaderTags[i], "-"), "Inception")
    {
      assert |LowerStr(RemovePrefix(UploaderTags[i], "-"))| < |LowerStr("Inception")|;
    }
  }

  lemma NoChromeInUpYify()
    ensures !HasChrome("Up-YIFY")
  {
    var t := LowerStr("Up-YIFY");
    assert t == "up-yify";
    forall i | 0 <= i < |Chrome| ensures !ContainsIgnoreCase("Up-YIFY", Chrome[i]) {
      var c := LowerStr(Chrome[i]);
      if |c| <= |t| {
        // "Name", "Size" and "_h5ai" are the only chrome strings short enough
        assert i == 2 || i == 4 || i == 9;
        assert c[0] !in t;
        FirstCharAbsent(t, c);
      }
    }
  }

  /** A string whose first character does not occur in `t` occurs nowhere in `t`. */
  lemma FirstCharAbsent(t: string, c: string)
    requires |c| > 0 && c[0] !in t
    ensures forall k :: !OccursAt(t, c, k)
  {
    forall k | 0 <= k <= |t| - |c| ensures !OccursAt(t, c, k) {
      assert t[k..k + |c|][0] == t[k];
    }
  }

  // ---------------------------------------------------------------------------
  // Ranking (`sortByTitle`)

  /** The ranking score: 1.0 when the title starts with the query (ignoring case),
      the bigram score of the lower-cased strings otherwise, plus 0.5 for a folder. */
  function Score(a: Anime, query: string): real {
    (if StartsWithIgnoreCase(a.title, query) then 1.0 else Dice(LowerStr(a.title), LowerStr(query)))
    + (if EndsWith(a.url, "/") then 0.5 else 0.0)
  }

  /** `list.sortedByDescending { score }`: a stable sort by non-increasing score. */
  function SortByTitle(list: seq<Anime>, query: string): (r: seq<Anime>)
    ensures multiset(r) == multiset(list)
    ensures forall i, j :: 0 <= i < j < |r| ==> Score(r[i], query) >= Score(r[j], query)
  {
    var r := SortDesc(list, a => Score(a, query));
    assert forall i, j :: 0 <= i < j < |r| ==> Score(r[i], query) >= Score(r[j], query) by {
      assert NonIncreasing(r, a => Score(a, query));
    }
    r
  }

  /** The sort is stable: the entries of any one score keep their relative order. */
  lemma SortByTitleStable(list: seq<Anime>, query: string, s: real)
    ensures WithKey(SortByTitle(list, query), a => Score(a, query), s)
         == WithKey(list, a => Score(a, query), s)
  {
    SortDescStable(list, a => Score(a, query), s);
  }

  /** A title with the query as prefix scores 1.0, or 1.5 as a folder. */
  lemma PrefixScore(a: Anime, query: string)
    requires StartsWithIgnoreCase(a.title, query)
    ensures Score(a, query) == if EndsWith(a.url, "/") then 1.5 else 1.0
  {
  }

  // ---------------------------------------------------------------------------
  // Folder collapse (`collapseResults`)

  function UrlOf(a: Anime): string {
    a.url
  }

  predicate IsFolder(a: Anime) {
    EndsWith(a.url, "/")
  }

  /** The urls of the folder entries of `list`. */
  function FolderUrls(list: seq<Anime>): set<string> {
    set a | a in list && IsFolder(a) :: a.url
  }

  /** A folder entry, or a file whose url starts with none of `folders`. */
  predicate Survives(a: Anime, folders: set<string>) {
    IsFolder(a) || !(exists f | f in folders :: StartsWith(a.url, f))
  }

  function KeepSurvivors(list: seq<Anime>, folders: set<string>): (r: seq<Anime>)
    ensures Sublist(r, list)
    ensures forall x :: multiset(r)[x] == if Survives(x, folders) then multiset(list)[x] else 0
  {
    if list == [] then []
    else
      var rest := KeepSurvivors(list[1..], folders);
      assert list == [list[0]] + list[1..];
      if Survives(list[0], folders) then
        SublistRefl(rest);
        [list[0]] + rest
      else rest
  }

  /** `collapseResults`: drops the files that lie under a folder of the same list. */
  function CollapseResults(list: seq<Anime>): (r: seq<Anime>)
    ensures Sublist(r, list)
    ensures forall x :: multiset(r)[x] == if Survives(x, FolderUrls(list)) then multiset(list)[x] else 0
    ensures FolderUrls(list) == {} ==> r == list
  {
    var folders := FolderUrls(list);
    if folders == {} then
      SublistRefl(list);
      list
    else KeepSurvivors(list, folders)
  }

  /** Every folder entry survives the collapse; a file survives exactly when its url
      starts with no folder url. */
  lemma CollapseKeepsFolders(list: seq<Anime>, a: Anime)
    requires a in list
    ensures IsFolder(a) ==> a in CollapseResults(list)
    ensures !IsFolder(a) ==> (a in CollapseResults(list) <==>
              forall f | f in FolderUrls(list) :: !StartsWith(a.url, f))
  {
    var r := CollapseResults(list);
    assert multiset(list)[a] > 0;
    assert a in r <==> multiset(r)[a] > 0;
  }
}
