/** Normalisation of the configured site URL. */
module SiteConfig {
  import opened Wrappers
  import opened Strings

  const DefaultSiteUrl: string := "https://squadstat.com"

  /** Removes every trailing `/` (the pattern `/\/+$/` replaced by nothing). */
  function StripTrailingSlashes(s: string): (r: string)
    ensures r <= s
    ensures forall i :: |r| <= i < |s| ==> s[i] == '/'
    ensures |r| == 0 || r[|r| - 1] != '/'
  {
    if |s| > 0 && s[|s| - 1] == '/' then StripTrailingSlashes(s[..|s| - 1]) else s
  }

  /** The trimmed input with `https://` prefixed unless it already starts with
      `http://` or `https://`. */
  function WithProtocol(trimmed: string): (w: string)
    ensures StartsWith(w, "http://") || StartsWith(w, "https://")
    ensures StartsWith(trimmed, "http://") || StartsWith(trimmed, "https://") ==> w == trimmed
    ensures !(StartsWith(trimmed, "http://") || StartsWith(trimmed, "https://")) ==> w == "https://" + trimmed
    ensures w[0] == 'h'
  {
    if StartsWith(trimmed, "http://") || StartsWith(trimmed, "https://") then
      assert trimmed[0] == trimmed[..4][0];
      trimmed
    else
      var w := "https://" + trimmed;
      assert w[..|"https://"|] == "https://";
      w
  }

  /** `normalizeSiteUrl`: absent or blank input gives the default URL; otherwise
      the trimmed input, with a scheme ensured, loses all trailing slashes. */
  function NormalizeSiteUrl(raw: Option<string>): (r: string)
    ensures raw.None? || Trim(raw.value) == "" ==> r == DefaultSiteUrl
    ensures raw.Some? && Trim(raw.value) != "" ==>
              var w := WithProtocol(Trim(raw.value));
              && r <= w
              && (forall i :: |r| <= i < |w| ==> w[i] == '/')
    ensures |r| > 0 && r[|r| - 1] != '/'
  {
    if raw.None? || raw.value == "" then DefaultSiteUrl
    else
      var trimmed := Trim(raw.value);
      if trimmed == "" then DefaultSiteUrl
      else
        var w := WithProtocol(trimmed);
        StripTrailingSlashes(w)
  }

  /** Whitespace-only input falls back to the default URL. */
  lemma BlankGivesDefault(raw: string)
    requires forall i :: 0 <= i < |raw| ==> IsWhitespace(raw[i])
    ensures NormalizeSiteUrl(Some(raw)) == DefaultSiteUrl
  {
    TrimEmptyIffBlank(raw);
  }

  /** The normalised form of a URL without trailing slash and with a scheme is
      the URL itself, once surrounding whitespace is gone. */
  lemma CanonicalUrlUnchanged(url: string)
    requires Trim(url) == url && url != ""
    requires StartsWith(url, "http://") || StartsWith(url, "https://")
    requires url[|url| - 1] != '/'
    ensures NormalizeSiteUrl(Some(url)) == url
  {
  }
}
