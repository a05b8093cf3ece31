/** The URL-literal extractor `HtmlJs.extract_urls_from_js`: Python's `re.findall` with a
    pattern made of a quote (single or double), a first group `(http|https)://` followed by one
    or more characters of the class `InUrlClass`, and a closing quote (single or double); the
    result keeps the outer group, the URL, of every match.

    `IsMatch` is the language of the pattern, stated declaratively. `MatchAt` is the
    choice the backtracking engine makes at one start index (the `+` is greedy, so it
    backs off from the longest run of class characters to the last quote), and
    `FindAll` is the leftmost-first, non-overlapping scan of `findall`. */
module UrlExtract {
  import opened Optional

  predicate IsQuote(c: char) { c == '\'' || c == '"' }

  /** The bracketed class of the pattern. It holds the single quote but not the double quote. */
  predicate InUrlClass(c: char) {
    || ('a' <= c <= 'z')
    || ('A' <= c <= 'Z')
    || ('0' <= c <= '9')
    || c in "-._~:/?#@!$&'()*+,;=%"
  }

  predicate AllInUrlClass(t: string) {
    forall k :: 0 <= k < |t| ==> InUrlClass(t[k])
  }

  /** The language of the first group: `(http|https)://` followed by one or more class characters. */
  predicate IsUrlLiteral(u: string) {
    || (|u| > 7 && u[..7] == "http://" && AllInUrlClass(u[7..]))
    || (|u| > 8 && u[..8] == "https://" && AllInUrlClass(u[8..]))
  }

  /** The whole pattern matches s[i..j+1]: a quote at i, a URL literal, a quote at j.
      The shortest match is a quote, `http://`, one class character and a quote. */
  predicate IsMatch(s: string, i: nat, j: nat) {
    i < j < |s| && IsQuote(s[i]) && IsQuote(s[j]) && IsUrlLiteral(s[i + 1..j])
  }

  /** Index just past `://` when the text after index i starts with `http://` or `https://`.
      The alternation tries `http` first and falls back to `https` when `://` does not follow. */
  function SchemeEnd(s: string, i: nat): (p: Option<nat>)
    requires i < |s|
    ensures p.Some? ==> p.value <= |s|
    ensures p.Some? ==> || (p.value == i + 8 && s[i + 1..p.value] == "http://")
                        || (p.value == i + 9 && s[i + 1..p.value] == "https://")
  {
    if "http://" <= s[i + 1..] then Some(i + 8)
    else if "https://" <= s[i + 1..] then Some(i + 9)
    else None
  }

  /** The first index at or after p whose character is outside the class (|s| if none). */
  function ClassRunEnd(s: string, p: nat): (k: nat)
    requires p <= |s|
    ensures p <= k <= |s|
    ensures forall q :: p <= q < k ==> InUrlClass(s[q])
    ensures k < |s| ==> !InUrlClass(s[k])
    decreases |s| - p
  {
    if p < |s| && InUrlClass(s[p]) then ClassRunEnd(s, p + 1) else p
  }

  /** Backtracking of the greedy `+`: try the closing quote at hi, then hi - 1, ..., down to lo. */
  function Backtrack(s: string, lo: nat, hi: nat): (r: Option<nat>)
    requires lo <= hi
    ensures r.Some? ==> lo <= r.value <= hi && r.value < |s| && IsQuote(s[r.value])
    ensures forall e :: lo <= e <= hi && e < |s| && IsQuote(s[e]) ==> r.Some? && e <= r.value
    decreases hi - lo
  {
    if hi < |s| && IsQuote(s[hi]) then Some(hi)
    else if hi == lo then None
    else Backtrack(s, lo, hi - 1)
  }

  /** The index of the closing quote of the match the engine finds starting at i, if any. */
  function MatchAt(s: string, i: nat): (r: Option<nat>)
    requires i < |s|
    ensures r.Some? ==> IsMatch(s, i, r.value)
  {
    if !IsQuote(s[i]) then None
    else match SchemeEnd(s, i)
      case None => None
      case Some(p) =>
        var k := ClassRunEnd(s, p);
        if k == p then None
        else
          var r := Backtrack(s, p + 1, k);
          if r.Some? then LiteralFromParts(s, i, p, r.value); r
          else r
  }

  /** A quote-delimited stretch made of a scheme and class characters is a URL literal. */
  lemma LiteralFromParts(s: string, i: nat, p: nat, j: nat)
    requires i < p < j <= |s|
    requires (p == i + 8 && s[i + 1..p] == "http://") || (p == i + 9 && s[i + 1..p] == "https://")
    requires forall q :: p <= q < j ==> InUrlClass(s[q])
    ensures IsUrlLiteral(s[i + 1..j])
  {
    var u := s[i + 1..j];
    assert u[..p - i - 1] == s[i + 1..p];
    var tail := u[p - i - 1..];
    forall q | 0 <= q < |tail| ensures InUrlClass(tail[q]) {
      assert tail[q] == s[p + q];
    }
  }

  /** A match at i fixes the scheme, so SchemeEnd succeeds and the class run covers the body. */
  lemma SchemeOfMatch(s: string, i: nat, j: nat)
    requires IsMatch(s, i, j)
    ensures SchemeEnd(s, i).Some? && SchemeEnd(s, i).value < j
    ensures forall q :: SchemeEnd(s, i).value <= q < j ==> InUrlClass(s[q])
  {
    var u := s[i + 1..j];
    var n: nat;
    if |u| > 7 && u[..7] == "http://" && AllInUrlClass(u[7..]) {
      assert s[i + 1..][..7] == u[..7];
      n := 7;
    } else {
      assert s[i + 1..][..8] == u[..8];
      assert s[i + 1..][4] == 's';
      n := 8;
    }
    assert SchemeEnd(s, i) == Some(i + 1 + n);
    forall q | i + 1 + n <= q < j ensures InUrlClass(s[q]) {
      assert s[q] == u[n..][q - i - 1 - n];
    }
  }

  /** Every match starting at i ends at or before the one MatchAt picks: the choice is the
      greatest, so MatchAt misses no match and backtracks only as far as it must. */
  lemma MatchAtGreatest(s: string, i: nat, j: nat)
    requires IsMatch(s, i, j)
    ensures MatchAt(s, i).Some? && j <= MatchAt(s, i).value
  {
    SchemeOfMatch(s, i, j);
    var p := SchemeEnd(s, i).value;
    var k := ClassRunEnd(s, p);
    assert j <= k;
  }

  /** When no quote follows j, the match from i that closes at j is the one the engine takes. */
  lemma MatchAtLastQuote(s: string, i: nat, j: nat)
    requires IsMatch(s, i, j)
    requires forall q :: j < q < |s| ==> !IsQuote(s[q])
    ensures MatchAt(s, i) == Some(j)
  {
    MatchAtGreatest(s, i, j);
  }

  /** One match of `findall`: the indices of its opening and closing quotes. */
  datatype Span = Span(open: nat, close: nat)

  /** Outcomes of match attempts, one per start index: each found match closes after it opens. */
  predicate ValidAttempts(t: seq<Option<nat>>) {
    forall i :: 0 <= i < |t| && t[i].Some? ==> i < t[i].value < |t|
  }

  /** The engine's attempt at every start index of s. */
  function Attempts(s: string): (t: seq<Option<nat>>)
    ensures |t| == |s| && ValidAttempts(t)
    ensures forall i :: 0 <= i < |s| ==> t[i] == MatchAt(s, i)
  {
    seq(|s|, i requires 0 <= i < |s| => MatchAt(s, i))
  }

  /** The scan of `findall` over the attempts: take the match at the current index if there is
      one and resume after its closing quote, otherwise move one index on. */
  function ScanAttempts(t: seq<Option<nat>>, from: nat): (ms: seq<Span>)
    requires ValidAttempts(t) && from <= |t|
    ensures forall k :: 0 <= k < |ms| ==> from <= ms[k].open < ms[k].close < |t|
    decreases |t| - from
  {
    if from == |t| then []
    else match t[from]
      case Some(j) => [Span(from, j)] + ScanAttempts(t, j + 1)
      case None => ScanAttempts(t, from + 1)
  }

  /** One step of the scan at a successful attempt. */
  lemma ScanStep(t: seq<Option<nat>>, from: nat)
    requires ValidAttempts(t) && from < |t| && t[from].Some?
    ensures ScanAttempts(t, from) == [Span(from, t[from].value)] + ScanAttempts(t, t[from].value + 1)
  {
  }

  /** Every span the scan reports is a successful attempt. */
  lemma {:induction false} ScanTaken(t: seq<Option<nat>>, from: nat, k: nat)
    requires ValidAttempts(t) && from <= |t| && k < |ScanAttempts(t, from)|
    ensures t[ScanAttempts(t, from)[k].open] == Some(ScanAttempts(t, from)[k].close)
    decreases |t| - from
  {
    if t[from].Some? {
      var rest := ScanAttempts(t, t[from].value + 1);
      assert ScanAttempts(t, from) == [Span(from, t[from].value)] + rest;
      if k > 0 {
        ScanTaken(t, t[from].value + 1, k - 1);
        assert ScanAttempts(t, from)[k] == rest[k - 1];
      }
    } else {
      ScanTaken(t, from + 1, k);
    }
  }

  /** Reported spans come left to right and never overlap. */
  lemma {:induction false} ScanOrdered(t: seq<Option<nat>>, from: nat, a: nat, b: nat)
    requires ValidAttempts(t) && from <= |t| && a < b < |ScanAttempts(t, from)|
    ensures ScanAttempts(t, from)[a].close < ScanAttempts(t, from)[b].open
    decreases |t| - from
  {
    if t[from].Some? {
      var rest := ScanAttempts(t, t[from].value + 1);
      assert ScanAttempts(t, from) == [Span(from, t[from].value)] + rest;
      assert ScanAttempts(t, from)[b] == rest[b - 1];
      if a > 0 {
        ScanOrdered(t, t[from].value + 1, a - 1, b - 1);
        assert ScanAttempts(t, from)[a] == rest[a - 1];
      }
    } else {
      ScanOrdered(t, from + 1, a, b);
    }
  }

  predicate Covers(ms: seq<Span>, q: nat) {
    exists k :: 0 <= k < |ms| && ms[k].open <= q <= ms[k].close
  }

  /** Every index at or after `from` where an attempt succeeds lies inside a reported span. */
  lemma {:induction false} ScanCovers(t: seq<Option<nat>>, from: nat, q: nat)
    requires ValidAttempts(t) && from <= q < |t| && t[q].Some?
    ensures Covers(ScanAttempts(t, from), q)
    decreases |t| - from
  {
    var ms := ScanAttempts(t, from);
    if t[from].Some? {
      var e := t[from].value;
      var rest := ScanAttempts(t, e + 1);
      assert ms == [Span(from, e)] + rest;
      if q > e {
        ScanCovers(t, e + 1, q);
        var k :| 0 <= k < |rest| && rest[k].open <= q <= rest[k].close;
        assert ms[k + 1] == rest[k];
      } else {
        assert ms[0].open <= q <= ms[0].close;
      }
    } else {
      ScanCovers(t, from + 1, q);
    }
  }

  /** A stretch with no successful attempt is passed over. */
  lemma {:induction false} ScanSkip(t: seq<Option<nat>>, from: nat, to: nat)
    requires ValidAttempts(t) && from <= to <= |t|
    requires forall q :: from <= q < to ==> t[q].None?
    ensures ScanAttempts(t, from) == ScanAttempts(t, to)
    decreases |t| - from
  {
    if from < to {
      ScanSkip(t, from + 1, to);
    }
  }

  /** `re.findall` from index `from`. */
  function FindAll(s: string, from: nat): (ms: seq<Span>)
    requires from <= |s|
    ensures forall k :: 0 <= k < |ms| ==> from <= ms[k].open < ms[k].close < |s|
  {
    ScanAttempts(Attempts(s), from)
  }

  /** Where the engine finds a match, `findall` reports it and resumes after its closing quote. */
  lemma FindAllStep(s: string, i: nat, j: nat)
    requires i < |s| && MatchAt(s, i) == Some(j)
    ensures FindAll(s, i) == [Span(i, j)] + FindAll(s, j + 1)
  {
    ScanStep(Attempts(s), i);
  }

  /** Every reported span is a match of the pattern. */
  lemma FindAllSound(s: string, from: nat, k: nat)
    requires from <= |s| && k < |FindAll(s, from)|
    ensures IsMatch(s, FindAll(s, from)[k].open, FindAll(s, from)[k].close)
  {
    ScanTaken(Attempts(s), from, k);
  }

  /** Reported spans come left to right and never overlap: a closing quote is never reused
      as the next opening quote. */
  lemma FindAllOrdered(s: string, from: nat, a: nat, b: nat)
    requires from <= |s| && a < b < |FindAll(s, from)|
    ensures FindAll(s, from)[a].close < FindAll(s, from)[b].open
  {
    ScanOrdered(Attempts(s), from, a, b);
  }

  /** Each match is as long as the pattern allows from its opening quote. */
  lemma FindAllGreedy(s: string, from: nat, k: nat, j: nat)
    requires from <= |s| && k < |FindAll(s, from)|
    requires IsMatch(s, FindAll(s, from)[k].open, j)
    ensures j <= FindAll(s, from)[k].close
  {
    ScanTaken(Attempts(s), from, k);
    MatchAtGreatest(s, FindAll(s, from)[k].open, j);
  }

  /** No match is missed: every index where the pattern could start lies inside some reported
      match (it is that match's opening quote, or it was consumed by an earlier match). */
  lemma FindAllLeftmost(s: string, from: nat, q: nat, j: nat)
    requires from <= q && IsMatch(s, q, j)
    ensures Covers(FindAll(s, from), q)
  {
    MatchAtGreatest(s, q, j);
    ScanCovers(Attempts(s), from, q);
  }

  /** Every URL literal is free of double quotes, spaces and angle brackets. */
  lemma UrlLiteralChars(u: string)
    requires IsUrlLiteral(u)
    ensures '"' !in u && ' ' !in u && '<' !in u
  {
    var n := if |u| > 7 && u[..7] == "http://" && AllInUrlClass(u[7..]) then 7 else 8;
    forall k | 0 <= k < |u| ensures u[k] != '"' && u[k] != ' ' && u[k] != '<' {
      if k >= n {
        assert InUrlClass(u[n..][k - n]);
      } else {
        assert u[k] == u[..n][k];
      }
    }
  }

  /** `extract_urls_from_js`: the first group of every match, in order. */
  function ExtractUrls(js: string): (urls: seq<string>)
    ensures forall u :: u in urls ==> IsUrlLiteral(u) && '"' !in u && ' ' !in u && '<' !in u
  {
    var ms := FindAll(js, 0);
    var urls := seq(|ms|, k requires 0 <= k < |ms| => js[ms[k].open + 1..ms[k].close]);
    assert forall u :: u in urls ==> IsUrlLiteral(u) && '"' !in u && ' ' !in u && '<' !in u by {
      forall u | u in urls ensures IsUrlLiteral(u) && '"' !in u && ' ' !in u && '<' !in u {
        var k :| 0 <= k < |urls| && urls[k] == u;
        FindAllSound(js, 0, k);
        UrlLiteralChars(u);
      }
    }
    urls
  }

  /** Each extracted URL, the last and a lone one included, sits between two quotes in the
      input (the quotes need not match). */
  lemma ExtractedQuoted(js: string, k: nat)
    requires k < |ExtractUrls(js)|
    ensures var m := FindAll(js, 0)[k];
      && IsQuote(js[m.open]) && IsQuote(js[m.close]) && js[m.open + 1..m.close] == ExtractUrls(js)[k]
  {
    FindAllSound(js, 0, k);
  }

  /** Later URLs lie strictly to the right of earlier ones, past their closing quotes. */
  lemma ExtractedQuotedInOrder(js: string, a: nat, b: nat)
    requires a < b < |ExtractUrls(js)|
    ensures var ms := FindAll(js, 0);
      && IsQuote(js[ms[a].open]) && js[ms[a].open + 1..ms[a].close] == ExtractUrls(js)[a]
      && IsQuote(js[ms[a].close]) && ms[a].close < ms[b].open
  {
    FindAllSound(js, 0, a);
    FindAllOrdered(js, 0, a, b);
  }

  /** A stretch without quote characters holds no match start, so the scan passes over it. */
  lemma FindAllSkip(s: string, from: nat, to: nat)
    requires from <= to <= |s|
    requires forall q :: from <= q < to ==> !IsQuote(s[q])
    ensures FindAll(s, from) == FindAll(s, to)
  {
    ScanSkip(Attempts(s), from, to);
  }

  /** Text without a quote character yields no URL. */
  lemma ExtractNoQuote(js: string)
    requires forall q :: 0 <= q < |js| ==> !IsQuote(js[q])
    ensures ExtractUrls(js) == []
  {
    FindAllSkip(js, 0, |js|);
  }

  /** A single match, with no other quote before its opening or after its closing quote,
      is the one URL extracted. */
  lemma ExtractSingle(s: string, i: nat, j: nat)
    requires IsMatch(s, i, j)
    requires forall q :: 0 <= q < i ==> !IsQuote(s[q])
    requires forall q :: j < q < |s| ==> !IsQuote(s[q])
    ensures ExtractUrls(s) == [s[i + 1..j]]
  {
    FindAllSingle(s, i, j);
  }

  lemma FindAllSingle(s: string, i: nat, j: nat)
    requires IsMatch(s, i, j)
    requires forall q :: 0 <= q < i ==> !IsQuote(s[q])
    requires forall q :: j < q < |s| ==> !IsQuote(s[q])
    ensures FindAll(s, 0) == [Span(i, j)]
  {
    MatchAtLastQuote(s, i, j);
    FindAllSkip(s, 0, i);
    FindAllStep(s, i, j);
    FindAllSkip(s, j + 1, |s|);
    assert FindAll(s, |s|) == [];
  }

  /** A URL literal between two quotes, in text that has no other quote character, is extracted
      exactly. The literal itself may hold single quotes: the closing quote is the last one. */
  lemma ExtractEmbedded(pre: string, open: char, u: string, close: char, post: string)
    requires IsQuote(open) && IsQuote(close) && IsUrlLiteral(u)
    requires forall q :: 0 <= q < |pre| ==> !IsQuote(pre[q])
    requires forall q :: 0 <= q < |post| ==> !IsQuote(post[q])
    ensures ExtractUrls(pre + [open] + u + [close] + post) == [u]
  {
    var s := pre + [open] + u + [close] + post;
    var i, j := |pre|, |pre| + 1 + |u|;
    forall q | 0 <= q < i ensures !IsQuote(s[q]) {
      assert s[q] == pre[q];
    }
    forall q | j < q < |s| ensures !IsQuote(s[q]) {
      assert s[q] == post[q - j - 1];
    }
    assert s[i + 1..j] == u;
    ExtractSingle(s, i, j);
  }

  lemma ExtractFetchExample()
    ensures ExtractUrls("fetch('https://evil.test/x')") == ["https://evil.test/x"]
  {
    EvilUrlIsLiteral();
    ExtractEmbedded("fetch(", '\'', "https://evil.test/x", '\'', ")");
    FetchExampleText();
  }

  lemma EvilUrlIsLiteral()
    ensures IsUrlLiteral("https://evil.test/x")
  {
    var u := "https://evil.test/x";
    assert u[..8] == "https://";
    assert AllInUrlClass(u[8..]);
  }

  lemma FetchExampleText()
    ensures "fetch(" + ['\''] + "https://evil.test/x" + ['\''] + ")" == "fetch('https://evil.test/x')"
  {
  }

  /** The closing quote is chosen greedily, so two adjacent single-quoted URLs come back as one. */
  lemma ExtractGreedyExample()
    ensures ExtractUrls("'https://a.com','https://b.com'") == ["https://a.com','https://b.com"]
  {
    var u := "https://a.com','https://b.com";
    assert u[..8] == "https://";
    assert AllInUrlClass(u[8..]);
    ExtractEmbedded("", '\'', u, '\'', "");
    GreedyExampleText();
  }

  lemma GreedyExampleText()
    ensures "" + ['\''] + "https://a.com','https://b.com" + ['\''] + "" == "'https://a.com','https://b.com'"
  {
  }
}
