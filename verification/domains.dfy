/** Registered-domain comparison: `HtmlJs.get_registered_domain` and `is_external_domain`.
    The public-suffix split itself is done by the `tldextract` library against the Public Suffix
    List; it is not part of this model and is passed in as the function `extract`, of which only
    the two fields the source reads are kept. */
module Domains {
  import opened Optional

  /** The `domain` and `suffix` fields of tldextract's result for one URL
      (for `https://www.example.co.uk/x`: domain `example`, suffix `co.uk`). */
  datatype DomainParts = DomainParts(domain: string, suffix: string)

  /** Index of the first '.' in r, or |r| when r has none. */
  function FirstDot(r: string): (d: nat)
    ensures d <= |r|
    ensures forall q :: 0 <= q < d ==> r[q] != '.'
    ensures d < |r| ==> r[d] == '.'
  {
    if r == [] || r[0] == '.' then 0 else 1 + FirstDot(r[1..])
  }

  /** Splits a registered domain back into its label and its suffix, at the first dot. */
  function SplitRegistered(r: string): Option<DomainParts> {
    var d := FirstDot(r);
    if d == |r| then None else Some(DomainParts(r[..d], r[d + 1..]))
  }

  /** `get_registered_domain`: the f-string `{domain}.{suffix}`. */
  function RegisteredDomain(extract: string -> DomainParts, url: string): (r: string)
    ensures |r| == |extract(url).domain| + 1 + |extract(url).suffix|
    ensures r[|extract(url).domain|] == '.'
  {
    extract(url).domain + "." + extract(url).suffix
  }

  /** The label tldextract reports as `domain` holds no dot, except for IP-address hosts (the
      whole address is the label and the suffix is empty); for a dot-free label, splitting the
      registered domain at its first dot gives back both fields. */
  lemma RegisteredDomainSplits(extract: string -> DomainParts, url: string)
    requires '.' !in extract(url).domain
    ensures SplitRegistered(RegisteredDomain(extract, url)) == Some(extract(url))
  {
    var p := extract(url);
    var r := RegisteredDomain(extract, url);
    var n := |p.domain|;
    forall q | 0 <= q < n ensures r[q] != '.' {
      assert r[q] == p.domain[q];
    }
    assert FirstDot(r) == n;
    assert r[..n] == p.domain;
    assert r[n + 1..] == p.suffix;
  }

  /** `is_external_domain`: the two registered-domain strings differ. */
  function IsExternalDomain(extract: string -> DomainParts, baseUrl: string, targetUrl: string): (r: bool)
    ensures extract(baseUrl) == extract(targetUrl) ==> !r
  {
    RegisteredDomain(extract, baseUrl) != RegisteredDomain(extract, targetUrl)
  }

  /** With dot-free labels, a target is external exactly when tldextract reports a different
      (domain, suffix) pair for it than for the page. */
  lemma ExternalIffPartsDiffer(extract: string -> DomainParts, baseUrl: string, targetUrl: string)
    requires '.' !in extract(baseUrl).domain && '.' !in extract(targetUrl).domain
    ensures IsExternalDomain(extract, baseUrl, targetUrl) <==> extract(baseUrl) != extract(targetUrl)
  {
    RegisteredDomainSplits(extract, baseUrl);
    RegisteredDomainSplits(extract, targetUrl);
  }

  /** No URL is external to itself. */
  lemma ExternalIrreflexive(extract: string -> DomainParts, url: string)
    ensures !IsExternalDomain(extract, url, url)
  {
  }

  /** Being external does not depend on which URL is the page's. */
  lemma ExternalSymmetric(extract: string -> DomainParts, u: string, v: string)
    ensures IsExternalDomain(extract, u, v) == IsExternalDomain(extract, v, u)
  {
  }

  /** There is no "cannot classify" outcome: a target for which tldextract finds neither a label
      nor a suffix has the registered domain "." and is external to every page that has a label. */
  lemma UnparsedTargetIsExternal(extract: string -> DomainParts, baseUrl: string, targetUrl: string)
    requires extract(targetUrl) == DomainParts("", "")
    requires extract(baseUrl).domain != ""
    ensures IsExternalDomain(extract, baseUrl, targetUrl)
  {
    assert RegisteredDomain(extract, targetUrl) == ".";
    assert |RegisteredDomain(extract, baseUrl)| >= 2;
  }
}
