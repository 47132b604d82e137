/**
 * FileSystemStorageService, as far as its URLs go: the base URL is normalised once,
 * in the constructor, and every URL is the base URL, a slash and the path.
 */
module FileStorage {
  import opened Wrappers
  import opened JavaString

  predicate IsSlash(c: char) {
    c == '/'
  }

  /** The base URL the constructor keeps: null becomes ""; otherwise the trailing
      slashes are removed and then the surrounding whitespace. */
  function NormalisedBaseUrl(baseUrl: Option<string>): string {
    if baseUrl.None? then "" else Strip(DropTrailing(baseUrl.value, IsSlash))
  }

  /** stripTrailingSlash: a URL not ending in "/" is only stripped; otherwise the loop
      removes one slash at a time while one is left at the end, then strips. */
  method StripTrailingSlash(url: string) returns (r: string)
    ensures r == NormalisedBaseUrl(Some(url))
  {
    if !EndsWith(url, "/") {
      assert url == [] || !IsSlash(url[|url| - 1]);
      return Strip(url);
    }
    var finalUrl := url;
    while EndsWith(finalUrl, "/")
      invariant DropTrailing(finalUrl, IsSlash) == DropTrailing(url, IsSlash)
      decreases |finalUrl|
    {
      finalUrl := finalUrl[..|finalUrl| - 1];
    }
    assert finalUrl == [] || !IsSlash(finalUrl[|finalUrl| - 1]);
    r := Strip(finalUrl);
  }

  /**
   * The normalised base URL is a piece of the given one with no whitespace at either
   * end. A URL without whitespace loses exactly its trailing slashes, so an all-slash
   * URL becomes "" and the result never ends in a slash.
   */
  lemma BaseUrlShape(url: string)
    ensures |NormalisedBaseUrl(Some(url))| <= |url|
    ensures NormalisedBaseUrl(Some(url)) != [] ==>
      !IsWhitespace(NormalisedBaseUrl(Some(url))[0]) &&
      !IsWhitespace(NormalisedBaseUrl(Some(url))[|NormalisedBaseUrl(Some(url))| - 1])
    ensures (forall i :: 0 <= i < |url| ==> !IsWhitespace(url[i])) ==>
      NormalisedBaseUrl(Some(url)) == DropTrailing(url, IsSlash) &&
      !EndsWith(NormalisedBaseUrl(Some(url)), "/")
  {
    var d := DropTrailing(url, IsSlash);
    var a, b := StripIsInnerSlice(d);
    if a < b {
      assert NormalisedBaseUrl(Some(url))[0] == d[a];
    }
    if forall i :: 0 <= i < |url| ==> !IsWhitespace(url[i]) {
      assert forall i :: 0 <= i < |d| ==> d[i] == url[i];
      NoWhitespaceUnstripped(d);
      if d != [] {
        assert d[|d| - 1..] == [d[|d| - 1]];
      }
    }
  }

  /** A text without whitespace strips to itself. */
  lemma NoWhitespaceUnstripped(s: string)
    requires forall i :: 0 <= i < |s| ==> !IsWhitespace(s[i])
    ensures Strip(s) == s
  {
    if s != [] {
      assert DropLeading(s, IsWhitespace) == s;
      assert DropTrailing(s, IsWhitespace) == s;
    }
  }

  /** A whitespace character after the last slash hides it from the loop: the base URL
      then keeps a trailing slash. */
  lemma WhitespaceKeepsSlash()
    ensures NormalisedBaseUrl(Some("files/ ")) == "files/"
  {
    var u := "files/ ";
    assert !IsSlash(u[|u| - 1]);
    assert DropTrailing(u, IsSlash) == u;
    assert DropLeading(u, IsWhitespace) == u;
    var t := "files/";
    assert u[..|u| - 1] == t;
    assert DropTrailing(u, IsWhitespace) == DropTrailing(t, IsWhitespace);
    assert DropTrailing(t, IsWhitespace) == t;
  }

  /** String.format("%s", path): a null path prints as "null". */
  function Formatted(path: Option<string>): string {
    if path.Some? then path.value else "null"
  }

  /** SignedUrlOptions: the validity period (a Duration, as a count of its units), whether the
      URL is read-only, and extra headers. */
  datatype SignedUrlOptions = SignedUrlOptions(expiration: int, readOnly: bool, customHeaders: map<string, string>)

  class FileSystemStorageService {
    const baseUrl: string

    /** new FileSystemStorageService(baseUrl) */
    constructor (baseUrl: Option<string>)
      ensures this.baseUrl == NormalisedBaseUrl(baseUrl)
    {
      var normalised := "";
      if baseUrl.Some? {
        normalised := StripTrailingSlash(baseUrl.value);
      }
      this.baseUrl := normalised;
    }

    /** getUrl: "%s/%s" of the base URL and the path. */
    function GetUrl(path: Option<string>): (r: string)
      ensures |r| == |baseUrl| + 1 + |Formatted(path)|
      ensures r[..|baseUrl|] == baseUrl && r[|baseUrl|] == '/' && r[|baseUrl| + 1..] == Formatted(path)
    {
      baseUrl + "/" + Formatted(path)
    }

    /** getSignedUrl: the options are ignored, the URL is the plain one. */
    function GetSignedUrl(path: Option<string>, options: Option<SignedUrlOptions>): (r: string)
      ensures r == GetUrl(path)
    {
      GetUrl(path)
    }

    /** Two signed URLs of one path are the same whatever their options. */
    lemma SignedUrlIgnoresOptions(path: Option<string>, options1: Option<SignedUrlOptions>, options2: Option<SignedUrlOptions>)
      ensures GetSignedUrl(path, options1) == GetSignedUrl(path, options2)
    {
    }
  }
}
