/**
 * The GitHub link normaliser of run.py: analytics event labels are public
 * issue links on github.com, and the normaliser turns one into the path
 * that addresses the same issue under the REST API base.
 */
module GitHubUrl {

  /** The public web host prefix the normaliser recognises. */
  const WebPrefix: string := "https://github.com/"

  /** The REST API base the correlation pass puts in front of a normalised path. */
  const ApiBase: string := "https://api.github.com/repos/"

  /** `p` is a prefix of `s` (Python's `s.startswith(p)`). */
  predicate StartsWith(s: string, p: string) {
    |p| <= |s| && s[..|p|] == p
  }

  /** `t` is a suffix of `s` (Python's `s.endswith(t)`). */
  predicate EndsWith(s: string, t: string) {
    |t| <= |s| && s[|s| - |t|..] == t
  }

  /** The source slices off a literal 19 characters; that is exactly the prefix it tested for. */
  lemma WebPrefixLength()
    ensures |WebPrefix| == 19
  {
  }

  /**
   * Drops the web host prefix when the label carries it, and leaves any other
   * label untouched. Only one occurrence of the prefix is removed.
   */
  function Stripped(url: string): (r: string)
    ensures StartsWith(url, WebPrefix) ==> WebPrefix + r == url
    ensures !StartsWith(url, WebPrefix) ==> r == url
    ensures EndsWith(url, r)
    ensures |r| < |url| <==> StartsWith(url, WebPrefix)
    ensures |url| - |r| in {0, |WebPrefix|}
  {
    if StartsWith(url, WebPrefix) then url[19..] else url
  }

  /** Prefixing a path with the web host and normalising gives the path back. */
  lemma StrippedUndoesPrefix(path: string)
    ensures Stripped(WebPrefix + path) == path
  {
    assert (WebPrefix + path)[..|WebPrefix|] == WebPrefix;
  }

  /**
   * An independent description of the normaliser: `r` is its result for `url`
   * exactly when `url` is the web host followed by `r`, or `url` lacks the
   * prefix and `r` is `url` itself.
   */
  lemma StrippedCharacterised(url: string, r: string)
    ensures Stripped(url) == r
        <==> (url == WebPrefix + r || (!StartsWith(url, WebPrefix) && r == url))
  {
    if url == WebPrefix + r {
      StrippedUndoesPrefix(r);
    }
  }

  /**
   * The normaliser is not idempotent in general: it is a fixed point on its
   * own output exactly when that output does not itself start with the prefix.
   */
  lemma StrippedTwiceIff(url: string)
    ensures Stripped(Stripped(url)) == Stripped(url)
        <==> !StartsWith(Stripped(url), WebPrefix)
  {
  }

  /** A doubled prefix loses only its first copy. */
  lemma StripsOnlyOnce()
    ensures Stripped(WebPrefix + WebPrefix + "x") == WebPrefix + "x"
    ensures Stripped(Stripped(WebPrefix + WebPrefix + "x")) != Stripped(WebPrefix + WebPrefix + "x")
  {
    assert WebPrefix + WebPrefix + "x" == WebPrefix + (WebPrefix + "x");
    StrippedUndoesPrefix(WebPrefix + "x");
    StrippedUndoesPrefix("x");
  }

  /**
   * The prefix test is literal and case-sensitive: an `http://` link and an
   * upper-case link pass through unchanged.
   */
  lemma PlainHttpPassesThrough()
    ensures Stripped("http://github.com/a") == "http://github.com/a"
    ensures Stripped("HTTPS://GITHUB.COM/a") == "HTTPS://GITHUB.COM/a"
  {
    assert "http://github.com/a"[4] != WebPrefix[4];
    assert "HTTPS://GITHUB.COM/a"[0] != WebPrefix[0];
  }
}
