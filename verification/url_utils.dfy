/** utils/URLUtils.safeURL: joining a base URL and a path with exactly one `/`. */
module UrlUtils {
  import opened JavaStrings

  /** `URLUtils.safeURL(base, sufix)`, branch by branch. */
  function SafeUrl(base: string, suffix: string): (r: string)
    ensures EndsWith(r, suffix)
  {
    if EndsWith(base, "/") && StartsWith(suffix, "/") then base[..|base| - 1] + suffix
    else if EndsWith(base, "/") && !StartsWith(suffix, "/") then base + suffix
    else if !EndsWith(base, "/") && StartsWith(suffix, "/") then base + suffix
    else base + "/" + suffix
  }

  /** The base without one trailing `/`. */
  function Stem(base: string): string
  {
    if EndsWith(base, "/") then base[..|base| - 1] else base
  }

  /** The suffix without one leading `/`. */
  function Tail(suffix: string): string
  {
    if StartsWith(suffix, "/") then suffix[1..] else suffix
  }

  /**
   * Whatever the four cases, the result is the base stripped of one trailing
   * `/`, a single `/`, and the suffix stripped of one leading `/`.
   */
  lemma SafeUrlJoinsWithOneSlash(base: string, suffix: string)
    ensures SafeUrl(base, suffix) == Stem(base) + "/" + Tail(suffix)
  {
    if EndsWith(base, "/") && StartsWith(suffix, "/") {
      TailSplits(suffix);
      ConcatAssoc(Stem(base), "/", Tail(suffix));
    } else if EndsWith(base, "/") {
      StemSplits(base);
    } else if StartsWith(suffix, "/") {
      TailSplits(suffix);
      ConcatAssoc(base, "/", Tail(suffix));
    }
  }

  lemma ConcatAssoc(a: string, b: string, c: string)
    ensures a + (b + c) == a + b + c
  {
  }

  lemma StemSplits(base: string)
    requires EndsWith(base, "/")
    ensures base == Stem(base) + "/"
  {
    assert base[|base| - 1..] == "/";
  }

  lemma TailSplits(suffix: string)
    requires StartsWith(suffix, "/")
    ensures suffix == "/" + Tail(suffix)
  {
    assert suffix[..1] == "/";
  }

  /** A base given with or without its trailing `/` produces the same URL. */
  lemma SafeUrlIgnoresTrailingSlash(base: string, suffix: string)
    requires !EndsWith(base, "/")
    ensures SafeUrl(base + "/", suffix) == SafeUrl(base, suffix)
  {
    SafeUrlJoinsWithOneSlash(base, suffix);
    SafeUrlJoinsWithOneSlash(base + "/", suffix);
    assert EndsWith(base + "/", "/");
    assert (base + "/")[..|base + "/"| - 1] == base;
  }

  /** A suffix given with or without its leading `/` produces the same URL. */
  lemma SafeUrlIgnoresLeadingSlash(base: string, suffix: string)
    requires !StartsWith(suffix, "/")
    ensures SafeUrl(base, "/" + suffix) == SafeUrl(base, suffix)
  {
    SafeUrlJoinsWithOneSlash(base, suffix);
    SafeUrlJoinsWithOneSlash(base, "/" + suffix);
    assert StartsWith("/" + suffix, "/");
    assert ("/" + suffix)[1..] == suffix;
  }
}
