/** Cursor pagination of the store's REST API, as `getAllProducts` and
    `getArticlesByBlog` follow it: request a page, keep its items, read the URL of
    the next page from the `Link` response header, and stop when there is none.

    The store's answers are an input: the k-th element of `responses` answers the
    k-th request, and a request beyond the end of `responses` fails. */
module Paging {

  import opened Wrappers
  import opened Text

  const NextRel: string := "rel=\"next\""
  const Scheme: string := "https://"
  const ApiRoot: string := "/admin/api/2024-01"

  // ---------------------------------------------------------------------------
  // reading the Link header
  // ---------------------------------------------------------------------------

  /** `segments.find(s => s.includes(p))`, as the index of the first match. */
  function FindSegment(segments: seq<string>, p: string): (r: Option<nat>)
    ensures r.Some? ==> r.value < |segments| && Contains(segments[r.value], p)
    ensures r.Some? ==> forall j :: 0 <= j < r.value ==> !Contains(segments[j], p)
    ensures r.None? ==> forall j :: 0 <= j < |segments| ==> !Contains(segments[j], p)
    decreases |segments|
  {
    if |segments| == 0 then None
    else if Contains(segments[0], p) then Some(0)
    else match FindSegment(segments[1..], p)
      case None => None
      case Some(i) => Some(i + 1)
  }

  /** Where the lazy `.+?>` that started before index `j` ends: the first `>` at
      or after `j`, provided no line terminator (which `.` does not match) comes
      before it. */
  function CloseAngle(s: string, j: nat): (r: Option<nat>)
    ensures r.Some? ==> j <= r.value < |s| && s[r.value] == '>'
    ensures r.Some? ==> forall k :: j <= k < r.value ==> s[k] != '>' && !IsLineTerminator(s[k])
    decreases |s| - j
  {
    if j >= |s| then None
    else if s[j] == '>' then Some(j)
    else if IsLineTerminator(s[j]) then None
    else CloseAngle(s, j + 1)
  }

  /** Group 1 of `s.match(/<(.+?)>/)`, searching from index `i`: the leftmost `<`
      followed by at least one character and then the nearest `>` on the same
      line. */
  function AngleGroup(s: string, i: nat): (r: Option<string>)
    ensures r.Some? ==> |r.value| >= 1
    ensures r.Some? ==> forall k :: 0 <= k < |r.value| ==> !IsLineTerminator(r.value[k])
    decreases |s| - i
  {
    if i + 2 >= |s| then None
    else if s[i] == '<' && !IsLineTerminator(s[i + 1]) && CloseAngle(s, i + 2).Some? then
      var m := CloseAngle(s, i + 2).value;
      var g := s[i + 1..m];
      assert forall k :: 1 <= k < |g| ==> g[k] == s[i + 1 + k];
      Some(g)
    else AngleGroup(s, i + 1)
  }

  /** `g.replace(/^https:\/\/[^\/]+\/admin\/api\/2024-01/, "")`: the host part
      runs up to the first `/` after the scheme, and must not be empty. What is
      left is a suffix of the URL. */
  function StripApiPrefix(g: string): (r: string)
    ensures |r| <= |g| && r == g[|g| - |r|..]
  {
    if IsPrefix(Scheme, g) then
      var rest := g[|Scheme|..];
      match IndexOf(rest, '/')
        case None => g
        case Some(k) =>
          if k >= 1 && IsPrefix(ApiRoot, rest[k..]) then
            assert rest[k..][|ApiRoot|..] == g[|Scheme| + k + |ApiRoot|..];
            rest[k..][|ApiRoot|..]
          else g
    else g
  }

  /** The path of the next page, read from a `Link` header: no next page when the
      header is missing, empty or without `rel="next"`; otherwise the URL between
      angle brackets in the first comma-separated segment naming `rel="next"`,
      relative to the API root. `Failed` is the `TypeError` thrown when no such
      segment or no bracketed URL exists. */
  function NextPath(link: Option<string>): (r: Reply<Option<string>>)
    ensures !Truthy(link) ==> r == Ok(None)
    ensures Truthy(link) && !Contains(link.value, NextRel) ==> r == Ok(None)
    ensures r.Ok? && r.value.Some? ==> Truthy(link) && Contains(link.value, NextRel)
  {
    if !Truthy(link) || !Contains(link.value, NextRel) then Ok(None)
    else
      var segments := Split(link.value, ',');
      match FindSegment(segments, NextRel)
        case None => Failed
        case Some(i) =>
          match AngleGroup(segments[i], 0)
            case None => Failed
            case Some(url) => Ok(Some(StripApiPrefix(url)))
  }

  /** A prefix without the separator stays inside the first part of a split. */
  lemma {:induction false} SplitHeadPrefix(t: string, q: string)
    requires IsPrefix(q, t) && ',' !in q
    ensures IsPrefix(q, Split(t, ',')[0])
    decreases |q|
  {
    if |q| > 0 {
      assert q[1..] == t[1..][..|q| - 1];
      SplitHeadPrefix(t[1..], q[1..]);
      assert t[0] == q[0];
      var head := Split(t, ',')[0];
      assert head == [t[0]] + Split(t[1..], ',')[0];
      assert head[..|q|] == [t[0]] + Split(t[1..], ',')[0][..|q| - 1];
      assert [q[0]] + q[1..] == q;
    }
  }

  /** Text without the separator that occurs in a string occurs in one of its
      comma-separated parts. */
  lemma {:induction false} SplitCovers(s: string, p: string)
    requires Contains(s, p) && ',' !in p && |p| > 0
    ensures exists i :: 0 <= i < |Split(s, ',')| && Contains(Split(s, ',')[i], p)
    decreases |s|
  {
    var parts := Split(s, ',');
    var rest := Split(s[1..], ',');
    if s[..|p|] == p {
      assert s[0] == p[0] && s[0] != ',';
      SplitHeadPrefix(s, p);
      assert Contains(parts[0], p);
    } else {
      SplitCovers(s[1..], p);
      var i :| 0 <= i < |rest| && Contains(rest[i], p);
      if s[0] == ',' {
        assert parts[i + 1] == rest[i];
      } else if i > 0 {
        assert parts[i] == rest[i];
      } else {
        assert parts[0][1..] == rest[0];
        ContainsInSuffix(parts[0], 1, p);
      }
    }
  }

  /** A header that names `rel="next"` always has a segment naming it, so the
      parse fails only when that segment holds no bracketed URL. */
  lemma NextSegmentExists(link: string)
    requires Contains(link, NextRel)
    ensures FindSegment(Split(link, ','), NextRel).Some?
    ensures NextPath(Some(link)).Failed? <==>
      AngleGroup(Split(link, ',')[FindSegment(Split(link, ','), NextRel).value], 0).None?
  {
    SplitCovers(link, NextRel);
  }

  /** The lazy close finds the first `>` when the text before it is on one line. */
  lemma {:induction false} CloseAngleAt(s: string, j: nat, m: nat)
    requires j <= m < |s| && s[m] == '>'
    requires forall k :: j <= k < m ==> s[k] != '>' && !IsLineTerminator(s[k])
    ensures CloseAngle(s, j) == Some(m)
    decreases m - j
  {
    if j < m {
      CloseAngleAt(s, j + 1, m);
    }
  }

  predicate OneLineNoClose(t: string) {
    forall k :: 0 <= k < |t| ==> t[k] != '>' && t[k] != ',' && !IsLineTerminator(t[k])
  }

  /** The bracketed URL of a segment `<url>…` or ` <url>…` is `url`. */
  lemma AngleGroupOf(lead: string, url: string, tail: string)
    requires lead == "" || lead == " "
    requires |url| >= 1 && OneLineNoClose(url)
    ensures AngleGroup(lead + "<" + url + ">" + tail, 0) == Some(url)
  {
    var s := lead + "<" + url + ">" + tail;
    var i := |lead|;
    var m := i + 1 + |url|;
    assert s[i] == '<' && s[m] == '>';
    assert forall k :: i + 1 <= k < m ==> s[k] == url[k - i - 1];
    CloseAngleAt(s, i + 2, m);
    assert s[i + 1..m] == url;
    if lead == " " {
      assert s[0] == ' ';
    }
  }

  lemma SchemeOf(host: string, path: string)
    ensures IsPrefix(Scheme, ApiUrl(host, path))
    ensures ApiUrl(host, path)[|Scheme|..] == host + (ApiRoot + path)
  {
    var g := ApiUrl(host, path);
    assert g == Scheme + (host + (ApiRoot + path));
  }

  /** The first `/` after a slash-free host is the one that ends it. */
  lemma HostEnds(host: string, tail: string)
    requires host != [] && '/' !in host
    requires |tail| > 0 && tail[0] == '/'
    ensures IndexOf(host + tail, '/') == Some(|host|)
    ensures (host + tail)[|host|..] == tail
  {
    var s := host + tail;
    assert s[|host|] == '/';
    assert s[..|host|] == host;
  }

  lemma RootOf(path: string)
    ensures IsPrefix(ApiRoot, ApiRoot + path)
    ensures (ApiRoot + path)[|ApiRoot|..] == path
  {
  }

  /** A full URL on the API root of a host loses the scheme, host and root. */
  lemma StripApiPrefixOf(host: string, path: string)
    requires host != [] && '/' !in host
    ensures StripApiPrefix(ApiUrl(host, path)) == path
  {
    SchemeOf(host, path);
    HostEnds(host, ApiRoot + path);
    RootOf(path);
  }

  /** The full URL of a page path on the API root of a host. */
  function ApiUrl(host: string, path: string): string {
    Scheme + host + ApiRoot + path
  }

  const NextTail: string := "; " + NextRel

  /** The `rel="next"` segment Shopify sends for a page path on a host. */
  function NextSegment(lead: string, host: string, path: string): string {
    lead + "<" + ApiUrl(host, path) + ">" + NextTail
  }

  lemma ApiUrlClean(host: string, path: string)
    requires OneLineNoClose(host) && OneLineNoClose(path)
    ensures OneLineNoClose(ApiUrl(host, path))
  {
    var url := ApiUrl(host, path);
    forall k | 0 <= k < |url| ensures url[k] != '>' && url[k] != ',' && !IsLineTerminator(url[k]) {
      if k < |Scheme| {
        assert url[k] == Scheme[k];
      } else if k < |Scheme| + |host| {
        assert url[k] == host[k - |Scheme|];
      } else if k < |Scheme| + |host| + |ApiRoot| {
        assert url[k] == ApiRoot[k - |Scheme| - |host|];
      } else {
        assert url[k] == path[k - |Scheme| - |host| - |ApiRoot|];
      }
    }
  }

  lemma SegmentClean(lead: string, url: string)
    requires lead == "" || lead == " "
    requires OneLineNoClose(url)
    ensures ',' !in lead + "<" + url + ">" + NextTail
    ensures Contains(lead + "<" + url + ">" + NextTail, NextRel)
  {
    var prefix := lead + "<" + url + ">; ";
    var seg := lead + "<" + url + ">" + NextTail;
    assert seg == prefix + NextRel;
    forall k | 0 <= k < |seg| ensures seg[k] != ',' {
      if k < |lead| + 1 {
      } else if k < |lead| + 1 + |url| {
        assert seg[k] == url[k - |lead| - 1];
      } else {
        assert seg[k] == (">; " + NextRel)[k - |lead| - 1 - |url|];
      }
    }
    ContainsSuffix(prefix, NextRel);
  }

  /** A joined header contains what its last segment contains. */
  lemma JoinedContains(others: seq<string>, seg: string, p: string)
    requires Contains(seg, p)
    ensures Contains(Join(others + [seg], ","), p)
  {
    var link := Join(others + [seg], ",");
    if |others| > 0 {
      JoinAppend(others, seg, ",");
      assert link[|link| - |seg|..] == seg;
      ContainsInSuffix(link, |link| - |seg|, p);
    } else {
      assert link == seg;
    }
  }

  lemma {:induction false} FindSegmentLast(others: seq<string>, seg: string, p: string)
    requires forall i :: 0 <= i < |others| ==> !Contains(others[i], p)
    requires Contains(seg, p)
    ensures FindSegment(others + [seg], p) == Some(|others|)
    decreases |others|
  {
    if |others| > 0 {
      assert (others + [seg])[1..] == others[1..] + [seg];
      FindSegmentLast(others[1..], seg, p);
    }
  }

  /** In a header whose last segment is the first to name `rel="next"`, the
      parse picks that segment. */
  lemma HeaderFindsLast(others: seq<string>, seg: string)
    requires forall i :: 0 <= i < |others| ==> ',' !in others[i] && !Contains(others[i], NextRel)
    requires ',' !in seg && Contains(seg, NextRel)
    ensures Truthy(Some(Join(others + [seg], ","))) && Contains(Join(others + [seg], ","), NextRel)
    ensures Split(Join(others + [seg], ","), ',') == others + [seg]
    ensures FindSegment(others + [seg], NextRel) == Some(|others|)
  {
    var parts := others + [seg];
    JoinSplit(parts, ',');
    JoinedContains(others, seg, NextRel);
    FindSegmentLast(others, seg, NextRel);
  }

  /** Reading back a header whose `rel="next"` segment names a page path gives
      that path; the segments before it (which do not name `rel="next"`) do not
      matter. */
  lemma NextPathOfHeader(others: seq<string>, lead: string, host: string, path: string)
    requires forall i :: 0 <= i < |others| ==> ',' !in others[i] && !Contains(others[i], NextRel)
    requires lead == "" || lead == " "
    requires host != [] && '/' !in host && OneLineNoClose(host)
    requires OneLineNoClose(path)
    ensures NextPath(Some(Join(others + [NextSegment(lead, host, path)], ","))) == Ok(Some(path))
  {
    var url := ApiUrl(host, path);
    var seg := NextSegment(lead, host, path);
    assert ',' !in seg && Contains(seg, NextRel) by {
      ApiUrlClean(host, path);
      SegmentClean(lead, url);
    }
    HeaderFindsLast(others, seg);
    assert AngleGroup(seg, 0) == Some(url) by {
      ApiUrlClean(host, path);
      AngleGroupOf(lead, url, NextTail);
    }
    StripApiPrefixOf(host, path);
    assert (others + [seg])[|others|] == seg;
  }

  // ---------------------------------------------------------------------------
  // the crawl, as a function of the answers
  // ---------------------------------------------------------------------------

  /** One page of a listing: its items and its `Link` header. */
  datatype Page<T> = Page(items: seq<T>, link: Option<string>)

  /** An answer of the article listing: a page whose body may lack the listing
      (`None`), which ends the crawl. */
  type ArticleReply<T> = Reply<Option<Page<T>>>

  function Prepend<T>(items: seq<T>, r: Reply<seq<T>>): Reply<seq<T>> {
    if r.Ok? then Ok(items + r.value) else Failed
  }

  /** The outcome of crawling from `url` (none left to fetch when it is not
      truthy): all items in page order, or `Failed` when a request or the header
      parse fails. */
  function Crawl<T>(url: Option<string>, responses: seq<ArticleReply<T>>): (r: Reply<seq<T>>)
    ensures !Truthy(url) ==> r == Ok([])
    ensures Truthy(url) && r.Ok? ==> |responses| > 0 && responses[0].Ok?
    decreases |responses|
  {
    if !Truthy(url) then Ok([])
    else if |responses| == 0 then Failed
    else match responses[0]
      case Failed => Failed
      case Ok(None) => Ok([])
      case Ok(Some(page)) =>
        match NextPath(page.link)
          case Failed => Failed
          case Ok(next) => Prepend(page.items, Crawl(next, responses[1..]))
  }

  /** The paths requested when crawling from `url`, in order. */
  function Visits<T>(url: Option<string>, responses: seq<ArticleReply<T>>): (v: seq<string>)
    ensures |v| >= 1 <==> Truthy(url)
    ensures |v| >= 1 ==> v[0] == url.value
    ensures |v| <= |responses| + 1
    decreases |responses|
  {
    if !Truthy(url) then []
    else if |responses| > 0 && responses[0].Ok? && responses[0].value.Some?
            && NextPath(responses[0].value.value.link).Ok? then
      [url.value] + Visits(NextPath(responses[0].value.value.link).value, responses[1..])
    else [url.value]
  }

  /** The product listing always holds its items. */
  function Listed<T>(responses: seq<Reply<Page<T>>>): (r: seq<ArticleReply<T>>)
    ensures |r| == |responses|
    ensures forall k :: 0 <= k < |r| ==> r[k] == if responses[k].Ok? then Ok(Some(responses[k].value)) else Failed
  {
    seq(|responses|, k requires 0 <= k < |responses| => if responses[k].Ok? then Ok(Some(responses[k].value)) else Failed)
  }

  lemma PrependAppend<T>(a: seq<T>, b: seq<T>, r: Reply<seq<T>>)
    ensures Prepend(a, Prepend(b, r)) == Prepend(a + b, r)
    ensures Prepend([], r) == r
  {
    if r.Ok? {
      assert a + (b + r.value) == (a + b) + r.value;
      assert [] + r.value == r.value;
    }
  }

  /** One step of a crawl that fetched a page and read its header. */
  lemma CrawlPage<T>(url: Option<string>, responses: seq<ArticleReply<T>>, page: Page<T>)
    requires Truthy(url) && |responses| > 0 && responses[0] == Ok(Some(page))
    requires NextPath(page.link).Ok?
    ensures Crawl(url, responses) == Prepend(page.items, Crawl(NextPath(page.link).value, responses[1..]))
    ensures Visits(url, responses) == [url.value] + Visits(NextPath(page.link).value, responses[1..])
  {
  }

  /** A crawl that stops at its first request: the request fails, the page lacks
      the listing, or its header cannot be read. */
  lemma CrawlEnds<T>(url: Option<string>, responses: seq<ArticleReply<T>>)
    requires Truthy(url)
    requires |responses| == 0 || responses[0].Failed? || responses[0] == Ok(None)
             || NextPath(responses[0].value.value.link).Failed?
    ensures Visits(url, responses) == [url.value]
    ensures Crawl(url, responses) == if |responses| > 0 && responses[0] == Ok(None) then Ok([]) else Failed
  {
  }

  /** Concatenated items of the answered pages, in order. */
  function Gathered<T>(responses: seq<ArticleReply<T>>): seq<T>
    decreases |responses|
  {
    if |responses| == 0 then []
    else
      (if responses[0].Ok? && responses[0].value.Some? then responses[0].value.value.items else [])
      + Gathered(responses[1..])
  }

  /** No requested path is empty: `while (url)` stops at an empty next path. */
  lemma {:induction false} VisitsNonEmpty<T>(url: Option<string>, responses: seq<ArticleReply<T>>)
    ensures forall k :: 0 <= k < |Visits(url, responses)| ==> Visits(url, responses)[k] != ""
    decreases |responses|
  {
    var v := Visits(url, responses);
    if Truthy(url) && |v| > 1 {
      var next := NextPath(responses[0].value.value.link).value;
      VisitsNonEmpty(next, responses[1..]);
      assert v == [url.value] + Visits(next, responses[1..]);
    }
  }

  /** The requested paths form a chain: no path is empty, and each later one is
      the next path read from the page answering the one before. */
  lemma {:induction false} VisitsChain<T>(url: Option<string>, responses: seq<ArticleReply<T>>)
    ensures var v := Visits(url, responses);
      && (forall k :: 0 <= k < |v| ==> v[k] != "")
      && (forall k :: 0 <= k < |v| - 1 ==>
            && responses[k].Ok? && responses[k].value.Some?
            && NextPath(responses[k].value.value.link) == Ok(Some(v[k + 1])))
    decreases |responses|
  {
    VisitsNonEmpty(url, responses);
    var v := Visits(url, responses);
    if Truthy(url) && |v| > 1 {
      var next := NextPath(responses[0].value.value.link).value;
      VisitsChain(next, responses[1..]);
      var w := Visits(next, responses[1..]);
      assert v == [url.value] + w;
      forall k | 1 <= k < |v| - 1
        ensures responses[k].Ok? && responses[k].value.Some?
        ensures NextPath(responses[k].value.value.link) == Ok(Some(v[k + 1]))
      {
        var j := k - 1;
        assert responses[1..][j] == responses[k] && v[k + 1] == w[j + 1];
        assert NextPath(responses[1..][j].value.value.link) == Ok(Some(w[j + 1]));
      }
    }
  }

  /** The answer to the last request of a crawl. */
  predicate EndsWell<T>(last: ArticleReply<T>) {
    && last.Ok?
    && (last.value.Some? ==>
          && NextPath(last.value.value.link).Ok?
          && !Truthy(NextPath(last.value.value.link).value))
  }

  /** A crawl succeeds exactly when its last request was answered by a page
      without the listing or by a page with no next page. */
  lemma {:induction false} CrawlSucceeds<T>(url: Option<string>, responses: seq<ArticleReply<T>>)
    requires Truthy(url)
    ensures var n := |Visits(url, responses)|;
      n >= 1 && (Crawl(url, responses).Ok? <==> n <= |responses| && EndsWell(responses[n - 1]))
    decreases |responses|
  {
    var v := Visits(url, responses);
    if |responses| > 0 && responses[0].Ok? && responses[0].value.Some? && NextPath(responses[0].value.value.link).Ok? {
      var next := NextPath(responses[0].value.value.link).value;
      if Truthy(next) {
        var rest := responses[1..];
        CrawlSucceeds(next, rest);
        var w := Visits(next, rest);
        assert v == [url.value] + w;
        if |w| <= |rest| {
          assert rest[|w| - 1] == responses[|v| - 1];
        }
      }
    }
  }

  /** A successful crawl returns the items of the requested pages, in order. */
  lemma {:induction false} CrawlGathers<T>(url: Option<string>, responses: seq<ArticleReply<T>>)
    requires Truthy(url)
    requires Crawl(url, responses).Ok?
    ensures |Visits(url, responses)| <= |responses|
    ensures Crawl(url, responses).value == Gathered(responses[..|Visits(url, responses)|])
    decreases |responses|
  {
    var v := Visits(url, responses);
    if responses[0].Ok? && responses[0].value.Some? {
      var next := NextPath(responses[0].value.value.link).value;
      var rest := responses[1..];
      if Truthy(next) {
        CrawlGathers(next, rest);
        var w := Visits(next, rest);
        assert v == [url.value] + w;
        assert responses[..|v|][1..] == rest[..|w|];
      } else {
        assert responses[..1][1..] == [];
      }
    } else {
      assert responses[..1][1..] == [];
    }
  }

  /** Answers after the last request of a successful crawl are never read. */
  lemma {:induction false} CrawlIgnoresLater<T>(url: Option<string>, responses: seq<ArticleReply<T>>, more: seq<ArticleReply<T>>)
    requires Crawl(url, responses).Ok?
    ensures Crawl(url, responses + more) == Crawl(url, responses)
    ensures Visits(url, responses + more) == Visits(url, responses)
    decreases |responses|
  {
    if Truthy(url) && responses[0].Ok? && responses[0].value.Some? {
      var next := NextPath(responses[0].value.value.link).value;
      assert (responses + more)[1..] == responses[1..] + more;
      CrawlIgnoresLater(next, responses[1..], more);
    }
  }

  const FirstProductsPath: string := "/products.json?limit=250"

  function FirstArticlesPath(blogId: string): string {
    "/articles.json?blog_id=" + blogId + "&limit=250"
  }

  // ---------------------------------------------------------------------------
  // the two crawls
  // ---------------------------------------------------------------------------

  /** `getAllProducts`: returns the outcome and the paths it requested. */
  method GetAllProducts<T>(responses: seq<Reply<Page<T>>>) returns (r: Reply<seq<T>>, urls: seq<string>)
    ensures r == Crawl(Some(FirstProductsPath), Listed(responses))
    ensures urls == Visits(Some(FirstProductsPath), Listed(responses))
  {
    ghost var all := Listed(responses);
    var products: seq<T> := [];
    var url: Option<string> := Some(FirstProductsPath);
    urls := [];
    var k := 0;
    assert all[k..] == all;
    PrependAppend(products, [], Crawl(url, all));
    while Truthy(url)
      invariant 0 <= k <= |responses|
      invariant Prepend(products, Crawl(url, all[k..])) == Crawl(Some(FirstProductsPath), all)
      invariant urls + Visits(url, all[k..]) == Visits(Some(FirstProductsPath), all)
      decreases |responses| - k
    {
      ghost var rest := all[k..];
      if k == |responses| {
        CrawlEnds(url, rest);
        return Failed, urls + [url.value];
      }
      assert rest[1..] == all[k + 1..];
      match responses[k]
      case Failed =>
        CrawlEnds(url, rest);
        return Failed, urls + [url.value];
      case Ok(page) =>
        assert rest[0] == Ok(Some(page));
        var next := NextPath(page.link);
        if next.Failed? {
          CrawlEnds(url, rest);
          return Failed, urls + [url.value];
        }
        CrawlPage(url, rest, page);
        PrependAppend(products, page.items, Crawl(next.value, all[k + 1..]));
        urls := urls + [url.value];
        products := products + page.items;
        url := next.value;
        k := k + 1;
    }
    assert products + [] == products;
    r := Ok(products);
  }

  /** `getArticlesByBlog`: as `GetAllProducts`, but a page whose body lacks the
      article listing ends the crawl with what was gathered so far. */
  method GetArticlesByBlog<T>(blogId: string, responses: seq<ArticleReply<T>>) returns (r: Reply<seq<T>>, urls: seq<string>)
    ensures r == Crawl(Some(FirstArticlesPath(blogId)), responses)
    ensures urls == Visits(Some(FirstArticlesPath(blogId)), responses)
  {
    var articles: seq<T> := [];
    var url: Option<string> := Some(FirstArticlesPath(blogId));
    urls := [];
    var k := 0;
    assert responses[k..] == responses;
    PrependAppend(articles, [], Crawl(url, responses));
    while Truthy(url)
      invariant 0 <= k <= |responses|
      invariant Prepend(articles, Crawl(url, responses[k..])) == Crawl(Some(FirstArticlesPath(blogId)), responses)
      invariant urls + Visits(url, responses[k..]) == Visits(Some(FirstArticlesPath(blogId)), responses)
      decreases |responses| - k
    {
      ghost var rest := responses[k..];
      if k == |responses| {
        CrawlEnds(url, rest);
        return Failed, urls + [url.value];
      }
      assert rest[1..] == responses[k + 1..];
      match responses[k]
      case Failed =>
        CrawlEnds(url, rest);
        return Failed, urls + [url.value];
      case Ok(None) =>
        CrawlEnds(url, rest);
        assert articles + [] == articles;
        urls := urls + [url.value];
        break;
      case Ok(Some(page)) =>
        var next := NextPath(page.link);
        if next.Failed? {
          CrawlEnds(url, rest);
          return Failed, urls + [url.value];
        }
        CrawlPage(url, rest, page);
        PrependAppend(articles, page.items, Crawl(next.value, responses[k + 1..]));
        urls := urls + [url.value];
        articles := articles + page.items;
        url := next.value;
        k := k + 1;
    }
    assert articles + [] == articles;
    r := Ok(articles);
  }
}
