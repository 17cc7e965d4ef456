/** `fixUrl` and `getFolderThumb` of `DhakaFlix2`: the clean-up applied to urls
    scraped from listings before they are requested or shown. */
module UrlFix {
  import opened Text
  import opened Catalog

  // ---------------------------------------------------------------------------
  // `lastIndexOf(p, ignoreCase = true)`

  /** The last position at or below `k` where `p` occurs in `s`, or -1. */
  function LastFrom(s: string, p: string, k: int): (r: int)
    ensures r == -1 || (0 <= r <= k && OccursAt(s, p, r))
    ensures forall j :: r < j <= k ==> !OccursAt(s, p, j)
    decreases if k < 0 then 0 else k + 1
  {
    if k < 0 then -1
    else if OccursAt(s, p, k) then k
    else LastFrom(s, p, k - 1)
  }

  /** `s.lastIndexOf(p, ignoreCase = true)`. */
  function LastIndexIgnoreCase(s: string, p: string): (r: int)
    ensures r == -1 || OccursAt(LowerStr(s), LowerStr(p), r)
    ensures forall j :: r < j ==> !OccursAt(LowerStr(s), LowerStr(p), j)
  {
    LastFrom(LowerStr(s), LowerStr(p), |s| - |p|)
  }

  /** Lines 116-119 of `fixUrl`: cut `u` at the last "http://" or "https://" (in any
      case) when that lies after position 0. */
  function CutAtLastProtocol(u: string): string {
    var lastHttp := LastIndexIgnoreCase(u, "http://");
    var lastHttps := LastIndexIgnoreCase(u, "https://");
    var lastProtocol := if lastHttp > lastHttps then lastHttp else lastHttps;
    if lastProtocol > 0 then u[lastProtocol..] else u
  }

  // ---------------------------------------------------------------------------
  // `IP_HTTP_REGEX = (\d{1,3}\.\d{1,3}\.\d{1,3}\.\d{1,3})\s*http` replaced by "$1/http"

  predicate IsDigit(c: char) {
    '0' <= c <= '9'
  }

  /** `\s` of `java.util.regex`: [ \t\n\x0B\f\r]. */
  predicate IsRegexSpace(c: char) {
    c == ' ' || c == '\t' || c == '\n' || c as int == 0x0B || c as int == 0x0C || c == '\r'
  }

  /** The index just past the run of digits starting at `i`. */
  function DigitRunEnd(s: string, i: nat): (e: nat)
    requires i <= |s|
    ensures i <= e <= |s|
    ensures forall j :: i <= j < e ==> IsDigit(s[j])
    ensures e == |s| || !IsDigit(s[e])
    decreases |s| - i
  {
    if i < |s| && IsDigit(s[i]) then DigitRunEnd(s, i + 1) else i
  }

  /** The index just past the run of `\s` characters starting at `i`. */
  function SpaceRunEnd(s: string, i: nat): (e: nat)
    requires i <= |s|
    ensures i <= e <= |s|
    ensures forall j :: i <= j < e ==> IsRegexSpace(s[j])
    ensures e == |s| || !IsRegexSpace(s[e])
    decreases |s| - i
  {
    if i < |s| && IsRegexSpace(s[i]) then SpaceRunEnd(s, i + 1) else i
  }

  /** The run of digits at `j` ends at `m`. */
  lemma {:induction false} RunEndsAt(t: string, j: nat, m: nat)
    requires j <= m <= |t|
    requires forall x :: j <= x < m ==> IsDigit(t[x])
    requires m == |t| || !IsDigit(t[m])
    ensures DigitRunEnd(t, j) == m
    decreases m - j
  {
    if j < m {
      RunEndsAt(t, j + 1, m);
    }
  }

  /** Where `\d{1,3}` ends when matched at `i`, or -1.  Because a digit can never
      stand where the next token needs '.', 'h' or whitespace, backtracking
      into a shorter run never helps: the run must be whole and 1 to 3 long. */
  function Octet(s: string, i: nat): (e: int)
    requires i <= |s|
    ensures e == -1 || (i < e <= i + 3 && e <= |s|)
    ensures e != -1 ==> (forall j :: i <= j < e ==> IsDigit(s[j])) && (e == |s| || !IsDigit(s[e]))
    ensures e == -1 <==> DigitRunEnd(s, i) == i || DigitRunEnd(s, i) > i + 3
  {
    var e := DigitRunEnd(s, i);
    if 1 <= e - i <= 3 then e else -1
  }

  /** An IPv4 address has four digit groups. */
  const AddressGroups: nat := 4

  /** `\d{1,3}(\.\d{1,3})` repeated to `n` groups in all: a run of one to three
      digits, then either the end or a '.' and `n - 1` more groups. */
  predicate DottedGroups(t: string, n: nat)
    decreases n
  {
    var k := DigitRunEnd(t, 0);
    1 <= k <= 3
    && if n <= 1 then n == 1 && k == |t|
       else k < |t| && t[k] == '.' && DottedGroups(t[k + 1..], n - 1)
  }

  /** One digit group alone. */
  lemma LastGroup(s: string, i: nat, k: nat)
    requires i < k <= i + 3 && k <= |s|
    requires forall x :: i <= x < k ==> IsDigit(s[x])
    ensures DottedGroups(s[i..k], 1)
  {
    RunEndsAt(s[i..k], 0, k - i);
  }

  /** A digit group, a '.', and `n` more dotted groups make `n + 1` dotted groups. */
  lemma DottedStep(s: string, i: nat, k: nat, d: nat, n: nat)
    requires i < k <= i + 3 && k < d <= |s| && s[k] == '.' && n >= 1
    requires forall x :: i <= x < k ==> IsDigit(s[x])
    requires DottedGroups(s[k + 1..d], n)
    ensures DottedGroups(s[i..d], n + 1)
  {
    var t := s[i..d];
    RunEndsAt(t, 0, k - i);
    assert t[k - i + 1..] == s[k + 1..d];
  }

  /** `s[..m]` is a match of the IP regex whose group 1 is `s[..g]`: four dotted
      digit groups, then a run of whitespace, then "http". */
  predicate IpHttpMatch(s: string, g: nat, m: nat) {
    0 < g <= m - 4 && m <= |s|
    && DottedGroups(s[..g], AddressGroups)
    && (forall j :: g <= j < m - 4 ==> IsRegexSpace(s[j]))
    && StartsWith(s[m - 4..], "http")
  }

  /** An address, whitespace up to `w`, then "http" make a match. */
  lemma IpHttpFound(s: string, d: int, w: nat)
    requires d != -1 && d == AddressEnd(s, 0, AddressGroups)
    requires w == SpaceRunEnd(s, d) && StartsWith(s[w..], "http")
    ensures IpHttpMatch(s, d, w + 4)
  {
    AddressEndSound(s, 0, AddressGroups);
    assert s[..d] == s[0..d];
  }

  /** Where `n` digit groups joined by '.' end when matched at `i`, or -1 (see
      `AddressEndSound`). */
  function AddressEnd(s: string, i: nat, n: nat): (e: int)
    requires i <= |s| && n >= 1
    ensures e == -1 || i < e <= |s|
    decreases n
  {
    var o := Octet(s, i);
    if o < 0 then -1
    else if n == 1 then o
    else if o >= |s| || s[o] != '.' then -1
    else AddressEnd(s, o + 1, n - 1)
  }

  /** What `AddressEnd` finds is `n` dotted digit groups. */
  lemma {:induction false} AddressEndSound(s: string, i: nat, n: nat)
    requires i <= |s| && n >= 1
    ensures AddressEnd(s, i, n) != -1 ==> DottedGroups(s[i..AddressEnd(s, i, n)], n)
    decreases n
  {
    var o := Octet(s, i);
    if o >= 0 && n == 1 {
      LastGroup(s, i, o);
    } else if o >= 0 && o < |s| && s[o] == '.' {
      var e := AddressEnd(s, o + 1, n - 1);
      assert AddressEnd(s, i, n) == e;
      AddressEndSound(s, o + 1, n - 1);
      if e >= 0 {
        DottedStep(s, i, o, e, n - 1);
      }
    }
  }

  /** `Some((g, m))` when the IP regex matches at the start of `s`: group 1 is
      `s[..g]` and the match is `s[..m]`. */
  function MatchIpHttp(s: string): (r: Option<(nat, nat)>)
    ensures r.Some? ==> IpHttpMatch(s, r.value.0, r.value.1)
  {
    var d := AddressEnd(s, 0, AddressGroups);
    if d < 0 then None
    else
      var w := SpaceRunEnd(s, d);
      if StartsWith(s[w..], "http") then
        IpHttpFound(s, d, w);
        Some((d, w + 4))
      else None
  }

  /** The run of whitespace at `j` ends at `m`. */
  lemma {:induction false} SpaceRunEndsAt(t: string, j: nat, m: nat)
    requires j <= m <= |t|
    requires forall x :: j <= x < m ==> IsRegexSpace(t[x])
    requires m == |t| || !IsRegexSpace(t[m])
    ensures SpaceRunEnd(t, j) == m
    decreases m - j
  {
    if j < m {
      SpaceRunEndsAt(t, j + 1, m);
    }
  }

  /** The first group of `s[i..e]`, when that is not followed by a digit in `s`, is
      what `Octet` takes at `i`. */
  lemma OctetOfGroup(s: string, i: nat, e: nat)
    requires i <= e <= |s|
    requires 1 <= DigitRunEnd(s[i..e], 0) <= 3
    requires DigitRunEnd(s[i..e], 0) < e - i || e == |s| || !IsDigit(s[e])
    ensures Octet(s, i) == i + DigitRunEnd(s[i..e], 0)
  {
    var t := s[i..e];
    var k := DigitRunEnd(t, 0);
    assert forall x :: i <= x < i + k ==> s[x] == t[x - i];
    assert k < |t| ==> s[i + k] == t[k];
    RunEndsAt(s, i, i + k);
  }

  /** A single group not followed by a digit is what `Octet` takes. */
  lemma LastGroupEnd(s: string, i: nat, e: nat)
    requires i <= e <= |s|
    requires DottedGroups(s[i..e], 1)
    requires e == |s| || !IsDigit(s[e])
    ensures Octet(s, i) == e
  {
    OctetOfGroup(s, i, e);
  }

  /** Several groups start with the group `Octet` takes, then a '.' at `o`, then the
      rest of the groups. */
  lemma FirstGroupEnd(s: string, i: nat, e: nat, n: nat) returns (o: nat)
    requires i <= e <= |s| && n > 1
    requires DottedGroups(s[i..e], n)
    ensures o == Octet(s, i) && o < e && s[o] == '.'
    ensures DottedGroups(s[o + 1..e], n - 1)
  {
    var t := s[i..e];
    var k := DigitRunEnd(t, 0);
    OctetOfGroup(s, i, e);
    o := i + k;
    assert s[o] == t[k];
    assert t[k + 1..] == s[o + 1..e];
  }

  /** After a group and a '.', `AddressEnd` goes on with one group fewer. */
  lemma AddressEndNext(s: string, i: nat, n: nat, o: nat)
    requires i <= |s| && n > 1
    requires o == Octet(s, i) && o < |s| && s[o] == '.'
    ensures AddressEnd(s, i, n) == AddressEnd(s, o + 1, n - 1)
  {
  }

  /** `n` dotted digit groups from `i` to `e`, not followed by a digit, are what
      `AddressEnd` finds. */
  lemma {:induction false} AddressEndComplete(s: string, i: nat, e: nat, n: nat)
    requires i <= e <= |s| && n >= 1
    requires DottedGroups(s[i..e], n)
    requires e == |s| || !IsDigit(s[e])
    ensures AddressEnd(s, i, n) == e
    decreases n
  {
    if n == 1 {
      LastGroupEnd(s, i, e);
    } else {
      var o := FirstGroupEnd(s, i, e, n);
      AddressEndComplete(s, o + 1, e, n - 1);
      AddressEndNext(s, i, n, o);
    }
  }

  /** Every match of the IP regex at the start of `s` is the one `MatchIpHttp` finds:
      the address cannot end earlier or later, and `\s*` takes the whole run. */
  lemma MatchIpHttpComplete(s: string, g: nat, m: nat)
    requires IpHttpMatch(s, g, m)
    ensures MatchIpHttp(s) == Some((g, m))
  {
    assert s[m - 4] == s[m - 4..][0] == 'h';
    assert s[..g] == s[0..g];
    AddressEndComplete(s, 0, g, AddressGroups);
    SpaceRunEndsAt(s, g, m - 4);
    var w := SpaceRunEnd(s, AddressEnd(s, 0, AddressGroups));
    assert w == m - 4 && StartsWith(s[w..], "http");
  }

  /** `IP_HTTP_REGEX.replace(s, "$1/http")`: leftmost, non-overlapping matches. */
  function FixIpHttp(s: string): string
    decreases |s|
  {
    if s == [] then []
    else match MatchIpHttp(s)
      case Some((g, m)) => s[..g] + "/http" + FixIpHttp(s[m..])
      case None => [s[0]] + FixIpHttp(s[1..])
  }

  // ---------------------------------------------------------------------------
  // `DOUBLE_PROTOCOL_REGEX = http(s)?://http(s)?://` replaced by "http$1://"

  /** The length of `http(s)?://` at the start of `s`, or 0 when it does not match. */
  function ProtocolLength(s: string): (n: nat)
    ensures n == 0 || n == 7 || n == 8
    ensures n <= |s|
    ensures n == 7 <==> StartsWith(s, "http://")
    ensures n == 8 <==> StartsWith(s, "https://")
  {
    assert StartsWith(s, "http://") ==> s[4] == ':';
    assert StartsWith(s, "https://") ==> s[4] == 's';
    if StartsWith(s, "http://") then 7
    else if StartsWith(s, "https://") then 8
    else 0
  }

  function FixDoubleProtocol(s: string): string
    decreases |s|
  {
    if s == [] then []
    else
      var n1 := ProtocolLength(s);
      var n2 := if n1 > 0 then ProtocolLength(s[n1..]) else 0;
      if n1 > 0 && n2 > 0 then
        (if n1 == 8 then "https://" else "http://") + FixDoubleProtocol(s[n1 + n2..])
      else [s[0]] + FixDoubleProtocol(s[1..])
  }

  // ---------------------------------------------------------------------------
  // `replace(":://://", ":://")` and `MULTI_SLASH_REGEX = (?<!:)/{2,}` replaced by "/"

  /** `s.replace(pat, rep)`: leftmost, non-overlapping occurrences. */
  function ReplaceAll(s: string, pat: string, rep: string): string
    requires |pat| > 0
    decreases |s|
  {
    if s == [] then []
    else if StartsWith(s, pat) then rep + ReplaceAll(s[|pat|..], pat, rep)
    else [s[0]] + ReplaceAll(s[1..], pat, rep)
  }

  /** The index just past the run of '/' starting at `i`. */
  function SlashRunEnd(s: string, i: nat): (e: nat)
    requires i <= |s|
    ensures i <= e <= |s|
    ensures forall j :: i <= j < e ==> s[j] == '/'
    ensures e == |s| || s[e] != '/'
    decreases |s| - i
  {
    if i < |s| && s[i] == '/' then SlashRunEnd(s, i + 1) else i
  }

  /** `MULTI_SLASH_REGEX.replace` applied to `s[i..]`; the look-behind reads `s[i - 1]`. */
  function FixMultiSlashFrom(s: string, i: nat): string
    requires i <= |s|
    decreases |s| - i
  {
    if i == |s| then []
    else if s[i] == '/' && i + 1 < |s| && s[i + 1] == '/' && !(i > 0 && s[i - 1] == ':') then
      "/" + FixMultiSlashFrom(s, SlashRunEnd(s, i))
    else [s[i]] + FixMultiSlashFrom(s, i + 1)
  }

  function FixMultiSlash(s: string): string {
    FixMultiSlashFrom(s, 0)
  }

  // ---------------------------------------------------------------------------
  // `fixUrl`

  /** The value `fixUrl(url)` returns. */
  function FixedUrl(url: string): string {
    if IsBlank(url) then url
    else
      var u := CutAtLastProtocol(Trim(url));
      var u := FixMultiSlash(ReplaceAll(FixDoubleProtocol(FixIpHttp(u)), ":://://", ":://"));
      Escape(Escape(u, ' ', "%20"), '&', "%26")
  }

  /** `fixUrl`: reassigns `u` through each clean-up step. */
  method FixUrl(url: string) returns (u: string)
    ensures u == FixedUrl(url)
    ensures IsBlank(url) ==> u == url
    ensures !IsBlank(url) ==> ' ' !in u && '&' !in u
  {
    if IsBlank(url) {
      return url;
    }
    u := Trim(url);
    var lastHttp := LastIndexIgnoreCase(u, "http://");
    var lastHttps := LastIndexIgnoreCase(u, "https://");
    var lastProtocol := if lastHttp > lastHttps then lastHttp else lastHttps;
    if lastProtocol > 0 {
      u := u[lastProtocol..];
    }
    u := FixIpHttp(u);
    u := FixDoubleProtocol(u);
    u := ReplaceAll(u, ":://://", ":://");
    u := FixMultiSlash(u);
    u := Escape(u, ' ', "%20");
    u := Escape(u, '&', "%26");
    FixedUrlEscaped(url);
  }

  lemma {:induction false} EscapeRemoves(s: string, c: char, r: string, d: char)
    requires d !in r && (d == c || d !in s)
    ensures d !in Escape(s, c, r)
  {
    if s != [] {
      EscapeRemoves(s[1..], c, r, d);
    }
  }

  /** A non-blank url comes out with every ' ' and '&' percent-encoded. */
  lemma FixedUrlEscaped(url: string)
    ensures !IsBlank(url) ==> ' ' !in FixedUrl(url) && '&' !in FixedUrl(url)
  {
    if !IsBlank(url) {
      var u := CutAtLastProtocol(Trim(url));
      var v := FixMultiSlash(ReplaceAll(FixDoubleProtocol(FixIpHttp(u)), ":://://", ":://"));
      EscapeRemoves(v, ' ', "%20", ' ');
      EscapeRemoves(Escape(v, ' ', "%20"), '&', "%26", ' ');
      EscapeRemoves(Escape(v, ' ', "%20"), '&', "%26", '&');
    }
  }

  /** The cut keeps a suffix of `u`; when it removes anything, what is left starts
      with "http://" or "https://" in some case; and no such marker is left after
      its first position. */
  lemma CutAtLastProtocolSpec(u: string)
    ensures exists k :: 0 <= k <= |u| && CutAtLastProtocol(u) == u[k..]
    ensures CutAtLastProtocol(u) != u ==>
              StartsWithIgnoreCase(CutAtLastProtocol(u), "http://")
              || StartsWithIgnoreCase(CutAtLastProtocol(u), "https://")
    ensures forall j :: 0 < j ==>
              !OccursAt(LowerStr(CutAtLastProtocol(u)), "http://", j)
              && !OccursAt(LowerStr(CutAtLastProtocol(u)), "https://", j)
  {
    var lastHttp := LastIndexIgnoreCase(u, "http://");
    var lastHttps := LastIndexIgnoreCase(u, "https://");
    var p := if lastHttp > lastHttps then lastHttp else lastHttps;
    assert LowerStr("http://") == "http://";
    assert LowerStr("https://") == "https://";
    var k := if p > 0 then p else 0;
    assert CutAtLastProtocol(u) == u[k..];
    NoLaterOccurrence(u, k, "http://");
    NoLaterOccurrence(u, k, "https://");
    if p > 0 {
      MarkerAtCut(u, p, if p == lastHttp then "http://" else "https://");
    }
  }

  lemma NoLaterOccurrence(u: string, p: nat, pat: string)
    requires p <= |u|
    requires forall j :: p < j ==> !OccursAt(LowerStr(u), pat, j)
    ensures forall j :: 0 < j ==> !OccursAt(LowerStr(u[p..]), pat, j)
  {
    LowerSuffix(u, p);
    forall j | 0 < j ensures !OccursAt(LowerStr(u[p..]), pat, j) {
      assert !OccursAt(LowerStr(u), pat, p + j);
    }
  }

  lemma MarkerAtCut(u: string, p: nat, pat: string)
    requires p <= |u| && LowerStr(pat) == pat && OccursAt(LowerStr(u), pat, p)
    ensures StartsWithIgnoreCase(u[p..], pat)
  {
    LowerSuffix(u, p);
    assert LowerStr(u[p..])[..|pat|] == LowerStr(u)[p..p + |pat|];
  }

  lemma LowerSuffix(u: string, p: nat)
    requires p <= |u|
    ensures LowerStr(u[p..]) == LowerStr(u)[p..]
  {
  }

  /** `getFolderThumb`: the cover image a folder is expected to hold, or "" for a file. */
  function GetFolderThumb(baseUrl: string, url: string): (r: string)
    ensures !EndsWith(url, "/") ==> r == ""
    ensures EndsWith(url, "/") ==> ' ' !in r && '&' !in r
  {
    if !EndsWith(url, "/") then ""
    else
      var suffix := if Contains(baseUrl, "172.16.50.9") then "a11.jpg" else "a_AL_.jpg";
      FixedUrlEscaped(url + suffix);
      assert !IsBlank(url + suffix) by {
        assert (url + suffix)[|url + suffix| - 1] == 'g';
      }
      FixedUrl(url + suffix)
  }
}
