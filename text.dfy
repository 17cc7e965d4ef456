/** String operations of the Kotlin standard library that the extension relies on,
    written over `string` (a `seq<char>`).  Case-insensitive comparisons fold
    ASCII letters only. */
module Text {

  /** `Char.lowercaseChar()` restricted to ASCII letters. */
  function Lower(c: char): char {
    if 'A' <= c <= 'Z' then (c as int + 32) as char else c
  }

  /** `String.lowercase()`, ASCII letters only. */
  function LowerStr(s: string): string {
    seq(|s|, i requires 0 <= i < |s| => Lower(s[i]))
  }

  predicate StartsWith(s: string, p: string) {
    |p| <= |s| && s[..|p|] == p
  }

  predicate EndsWith(s: string, p: string) {
    |p| <= |s| && s[|s| - |p|..] == p
  }

  /** `p` occurs in `s` at position `i`. */
  predicate OccursAt(s: string, p: string, i: int) {
    0 <= i <= |s| - |p| && s[i..i + |p|] == p
  }

  predicate Contains(s: string, p: string) {
    exists i | 0 <= i <= |s| - |p| :: OccursAt(s, p, i)
  }

  predicate StartsWithIgnoreCase(s: string, p: string) {
    StartsWith(LowerStr(s), LowerStr(p))
  }

  predicate EndsWithIgnoreCase(s: string, p: string) {
    EndsWith(LowerStr(s), LowerStr(p))
  }

  predicate ContainsIgnoreCase(s: string, p: string) {
    Contains(LowerStr(s), LowerStr(p))
  }

  predicate EqualsIgnoreCase(a: string, b: string) {
    LowerStr(a) == LowerStr(b)
  }

  /** `Char.isWhitespace()` on the JVM: `Character.isWhitespace` or `Character.isSpaceChar`. */
  predicate IsWhitespace(c: char) {
    || 9 <= c as int <= 13
    || 28 <= c as int <= 32
    || c as int == 0xA0
    || c as int == 0x1680
    || 0x2000 <= c as int <= 0x200A
    || c as int == 0x2028 || c as int == 0x2029
    || c as int == 0x202F || c as int == 0x205F
    || c as int == 0x3000
  }

  /** `String.isBlank()`. */
  predicate IsBlank(s: string) {
    forall i | 0 <= i < |s| :: IsWhitespace(s[i])
  }

  function TrimStart(s: string): string {
    if s != [] && IsWhitespace(s[0]) then TrimStart(s[1..]) else s
  }

  function TrimEnd(s: string): string {
    if s != [] && IsWhitespace(s[|s| - 1]) then TrimEnd(s[..|s| - 1]) else s
  }

  /** `String.trim()`. */
  function Trim(s: string): string {
    TrimEnd(TrimStart(s))
  }

  /** `String.trimEnd(c)` and the `while (s.endsWith(c)) s = s.dropLast(1)` loop. */
  function DropTrailing(s: string, c: char): string {
    if s != [] && s[|s| - 1] == c then DropTrailing(s[..|s| - 1], c) else s
  }

  /** `String.lastIndexOf(c)`: the last index holding `c`, or -1. */
  function LastIndexOfChar(s: string, c: char): int {
    if s == [] then -1
    else if s[|s| - 1] == c then |s| - 1
    else LastIndexOfChar(s[..|s| - 1], c)
  }

  /** `String.substringAfterLast(c)`: the whole string when `c` does not occur. */
  function SubstringAfterLast(s: string, c: char): string {
    var k := LastIndexOfChar(s, c);
    if 0 <= k < |s| then s[k + 1..] else s
  }

  /** `String.replace(a, b)` for two characters. */
  function ReplaceChar(s: string, a: char, b: char): string {
    seq(|s|, i requires 0 <= i < |s| => if s[i] == a then b else s[i])
  }

  /** `String.replace(c.toString(), r)`: every `c` becomes the string `r`. */
  function Escape(s: string, c: char, r: string): string {
    if s == [] then [] else (if s[0] == c then r else [s[0]]) + Escape(s[1..], c, r)
  }

  /** `String.replace(Regex("/+"), "/")`: every run of '/' becomes one '/'. */
  function CollapseSlashes(s: string): string {
    if s == [] then []
    else if |s| >= 2 && s[0] == '/' && s[1] == '/' then CollapseSlashes(s[1..])
    else [s[0]] + CollapseSlashes(s[1..])
  }

  /** `String.removePrefix(p)`. */
  function RemovePrefix(s: string, p: string): string {
    if StartsWith(s, p) then s[|p|..] else s
  }

  /** `String.compareTo(b) <= 0`: lexicographic order on characters, a proper prefix first. */
  predicate LexLe(a: string, b: string) {
    if a == [] then true
    else if b == [] then false
    else if a[0] != b[0] then a[0] < b[0]
    else LexLe(a[1..], b[1..])
  }

  // ---------------------------------------------------------------------------
  // Facts about the operations above

  lemma {:induction false} LexLeTotal(a: string, b: string)
    ensures LexLe(a, b) || LexLe(b, a)
  {
    if a != [] && b != [] && a[0] == b[0] {
      LexLeTotal(a[1..], b[1..]);
    }
  }

  lemma {:induction false} LexLeTransitive(a: string, b: string, c: string)
    requires LexLe(a, b) && LexLe(b, c)
    ensures LexLe(a, c)
  {
    if a != [] && b != [] && c != [] && a[0] == b[0] && b[0] == c[0] {
      LexLeTransitive(a[1..], b[1..], c[1..]);
    }
  }

  lemma {:induction false} CollapseSlashesNoDouble(s: string)
    ensures forall i :: 0 <= i < |CollapseSlashes(s)| - 1 ==>
              !(CollapseSlashes(s)[i] == '/' && CollapseSlashes(s)[i + 1] == '/')
    ensures |s| > 0 ==> |CollapseSlashes(s)| > 0 && CollapseSlashes(s)[0] == s[0]
    ensures forall i :: 0 <= i < |CollapseSlashes(s)| ==> CollapseSlashes(s)[i] in s
  {
    if s != [] {
      CollapseSlashesNoDouble(s[1..]);
    }
  }

  lemma {:induction false} TrimKeepsChars(s: string)
    ensures forall c :: c in Trim(s) ==> c in s
  {
    TrimStartKeepsChars(s);
    TrimEndKeepsChars(TrimStart(s));
  }

  lemma {:induction false} TrimStartKeepsChars(s: string)
    ensures forall c :: c in TrimStart(s) ==> c in s
  {
    if s != [] && IsWhitespace(s[0]) {
      TrimStartKeepsChars(s[1..]);
    }
  }

  lemma {:induction false} TrimEndKeepsChars(s: string)
    ensures forall c :: c in TrimEnd(s) ==> c in s
  {
    if s != [] && IsWhitespace(s[|s| - 1]) {
      TrimEndKeepsChars(s[..|s| - 1]);
    }
  }

  /** Every replaced character is gone. */
  lemma ReplaceCharRemoves(s: string, a: char, b: char)
    requires a != b
    ensures a !in ReplaceChar(s, a, b)
    ensures forall c :: c in ReplaceChar(s, a, b) ==> c in s || c == b
  {
  }
}
