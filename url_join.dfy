/**
 * Joining the base URL of the logo ticker with the relative path of one
 * discovered image, with exactly one slash between them.
 */
module UrlJoin {

  /** True iff `s` is non-empty and its last character is a slash. */
  predicate EndsWithSlash(s: string) {
    |s| > 0 && s[|s| - 1] == '/'
  }

  /** True iff every character of `s` is a slash. */
  predicate AllSlashes(s: string) {
    forall i :: 0 <= i < |s| ==> s[i] == '/'
  }

  /** `k` slashes. */
  function Slashes(k: nat): (r: string)
    ensures |r| == k && AllSlashes(r)
  {
    seq(k, _ => '/')
  }

  /**
   * Python's `str.rstrip('/')`: remove every trailing slash. The result is a
   * prefix of the input that does not end in a slash, and what was removed
   * consists of slashes only.
   */
  function StripTrailingSlashes(s: string): (r: string)
    ensures r <= s
    ensures !EndsWithSlash(r)
    ensures AllSlashes(s[|r|..])
    decreases |s|
  {
    if EndsWithSlash(s) then StripTrailingSlashes(s[..|s| - 1]) else s
  }

  /**
   * The three facts of StripTrailingSlashes's contract pin its result down:
   * any prefix of `s` without a trailing slash, followed in `s` only by
   * slashes, is that result.
   */
  lemma {:induction false} StripUnique(s: string, t: string)
    requires t <= s && !EndsWithSlash(t) && AllSlashes(s[|t|..])
    ensures t == StripTrailingSlashes(s)
  {
    var r := StripTrailingSlashes(s);
    assert |t| == |r|;
  }

  /** Stripping twice strips nothing more. */
  lemma StripIdempotent(s: string)
    ensures StripTrailingSlashes(StripTrailingSlashes(s)) == StripTrailingSlashes(s)
  {
    var r := StripTrailingSlashes(s);
    assert r[|r|..] == [];
    StripUnique(r, r);
  }

  /** Appending any number of slashes does not change what is stripped to. */
  lemma StripIgnoresTrailingSlashes(s: string, k: nat)
    ensures StripTrailingSlashes(s + Slashes(k)) == StripTrailingSlashes(s)
  {
    var r := StripTrailingSlashes(s);
    var t := s + Slashes(k);
    assert r <= t by {
      assert t[..|s|] == s;
    }
    assert t[|r|..] == s[|r|..] + Slashes(k);
    StripUnique(t, r);
  }

  /**
   * The full URL of one image: the base with all trailing slashes
   * removed, exactly one slash, then the relative path.
   */
  function FullUrl(baseUrl: string, path: string): (r: string)
    ensures |r| > |path|
    ensures r[|r| - |path| - 1] == '/' && r[|r| - |path|..] == path
    ensures r[..|r| - |path| - 1] <= baseUrl
    ensures !EndsWithSlash(r[..|r| - |path| - 1])
    ensures AllSlashes(baseUrl[|r| - |path| - 1..])
  {
    var head := StripTrailingSlashes(baseUrl);
    var r := head + "/" + path;
    assert r[..|head|] == head;
    r
  }

  /**
   * The shape stated by FullUrl's contract determines the URL: whatever
   * string has that shape is FullUrl(baseUrl, path).
   */
  lemma FullUrlUnique(baseUrl: string, path: string, u: string)
    requires |u| > |path|
    requires u[|u| - |path| - 1] == '/' && u[|u| - |path|..] == path
    requires u[..|u| - |path| - 1] <= baseUrl
    requires !EndsWithSlash(u[..|u| - |path| - 1])
    requires AllSlashes(baseUrl[|u| - |path| - 1..])
    ensures u == FullUrl(baseUrl, path)
  {
    var head := u[..|u| - |path| - 1];
    StripUnique(baseUrl, head);
    assert u == head + "/" + path;
  }

  /**
   * A base URL given with zero, one or several trailing slashes yields the
   * same full URL.
   */
  lemma FullUrlIgnoresTrailingSlashes(baseUrl: string, k: nat, path: string)
    ensures FullUrl(baseUrl + Slashes(k), path) == FullUrl(baseUrl, path)
  {
    StripIgnoresTrailingSlashes(baseUrl, k);
  }
}
