/** The values the search pipeline and the directory resolver pass around, and the
    library calls they make that the model does not look into. */
module Catalog {

  datatype Option<+T> = None | Some(value: T)

  /** An `SAnime`: a folder (url ending in '/') or a file found on a server. */
  datatype Anime = Anime(title: string, url: string, thumbnail: string)

  /** Library calls taken as given:
      - `decode`: `URLDecoder.decode(s, "UTF-8")`, `None` when it throws;
      - `httpHost`: `s.toHttpUrlOrNull()?.let { "${it.scheme}://${it.host}" }`;
      - `resolve`: `base.toHttpUrlOrNull()?.resolve(href)?.toString()`, `None` when
        either the base or the reference cannot be parsed. */
  datatype Env = Env(
    decode: string -> Option<string>,
    httpHost: string -> Option<string>,
    resolve: (string, string) -> Option<string>)

  /** The value of `try { decode(s) } catch (e: Exception) { s }`. */
  function DecodeOr(env: Env, s: string): string {
    match env.decode(s)
    case Some(d) => d
    case None => s
  }

  predicate HasUrl(list: seq<Anime>, url: string) {
    exists i :: 0 <= i < |list| && list[i].url == url
  }

  /** The values `f` gives for the elements of `xs`, in order, dropping the `None`s. */
  function Collect<T, U>(xs: seq<T>, f: T -> Option<U>): (r: seq<U>)
    ensures |r| <= |xs|
  {
    if xs == [] then []
    else
      var last := f(xs[|xs| - 1]);
      Collect(xs[..|xs| - 1], f) + (if last.Some? then [last.value] else [])
  }

  /** Collecting one more element of a list appends that element's value, if any. */
  lemma CollectSnoc<T, U>(xs: seq<T>, i: nat, f: T -> Option<U>)
    requires i < |xs|
    ensures Collect(xs[..i + 1], f) == Collect(xs[..i], f) + (if f(xs[i]).Some? then [f(xs[i]).value] else [])
  {
    assert xs[..i + 1][..i] == xs[..i];
  }

  /** A collected value comes from some element, and every element's value is collected. */
  lemma {:induction false} CollectMembers<T, U>(xs: seq<T>, f: T -> Option<U>)
    ensures forall y :: y in Collect(xs, f) <==> exists j | 0 <= j < |xs| :: f(xs[j]) == Some(y)
    decreases |xs|
  {
    if xs != [] {
      var n := |xs| - 1;
      var init := xs[..n];
      CollectMembers(init, f);
      forall y ensures y in Collect(xs, f) <==> exists j | 0 <= j < |xs| :: f(xs[j]) == Some(y) {
        if y in Collect(init, f) {
          var j :| 0 <= j < |init| && f(init[j]) == Some(y);
          assert xs[j] == init[j];
        }
        if exists j | 0 <= j < |xs| :: f(xs[j]) == Some(y) {
          var j :| 0 <= j < |xs| && f(xs[j]) == Some(y);
          if j < n {
            assert init[j] == xs[j];
          }
        }
      }
    }
  }
}
