/**
 * The bulletin links, iframe source and image sources of a scraped page
 * (`scrape` and `bulk_scrape` in webscraper.py, `scrape` in
 * webscraper/app.py).
 *
 * The page is abstracted to its anchors, as (text, href) pairs in document
 * order, and to the optional `src` of its images; fetching and HTML
 * parsing are outside the model.
 */
module PageLinks {
  import opened Wrappers
  import opened Text
  import BulletinText

  /** An `<a href=...>` of the page: its stripped text and its href. */
  datatype Anchor = Anchor(text: string, href: string)

  /** One entry of `links`: the absolute url, the anchor text and the external flag. */
  datatype Link = Link(url: string, text: string, isExternal: bool)

  // ----------------------------------------------------------------- base url

  /** The first `k` pieces joined with `d`: `d.join(pieces[:k])`. */
  function JoinFirst(pieces: seq<string>, d: string, k: nat): string
    requires |pieces| >= 1 && k >= 1
  {
    Join(pieces[..if k < |pieces| then k else |pieces|], d)
  }

  /**
   * `'/'.join(url.split('/')[:3])`: the scheme and authority of an absolute
   * url (`https://host`), a crude form of the split in section 3 of RFC 3986.
   */
  function BaseUrl(url: string): (r: string)
    ensures StartsWith(url, r)
  {
    SplitJoinPrefix(url, "/", 3);
    JoinFirst(Split(url, "/"), "/", 3)
  }

  /** Joining the first `k` pieces of a split gives back a prefix of the string. */
  lemma {:induction false} SplitJoinPrefix(s: string, d: string, k: nat)
    requires |d| > 0 && k >= 1
    decreases |s|
    ensures StartsWith(s, JoinFirst(Split(s, d), d, k))
  {
    var pieces := Split(s, d);
    match IndexOf(s, d, 0)
    case None =>
      assert pieces == [s];
      assert pieces[..1] == [s];
    case Some(i) =>
      var rest := s[i + |d|..];
      var tail := Split(rest, d);
      assert pieces == [s[..i]] + tail;
      if k == 1 {
        assert pieces[..1] == [s[..i]];
      } else {
        SplitJoinPrefix(rest, d, k - 1);
        JoinFirstCons(s[..i], tail, d, k);
        assert s == s[..i] + d + rest;
        PrefixExtend(s[..i] + d, rest, JoinFirst(tail, d, k - 1));
      }
  }

  /** Joining the first `k >= 2` pieces of `[p] + tail` is `p`, the delimiter, then the first `k - 1` of `tail`. */
  lemma JoinFirstCons(p: string, tail: seq<string>, d: string, k: nat)
    requires |tail| >= 1 && k >= 2
    ensures JoinFirst([p] + tail, d, k) == p + d + JoinFirst(tail, d, k - 1)
  {
    var pieces := [p] + tail;
    var m := if k < |pieces| then k else |pieces|;
    assert pieces[..m][1..] == tail[..m - 1];
    assert pieces[..m][0] == p;
  }

  lemma PrefixExtend(a: string, b: string, x: string)
    requires StartsWith(b, x)
    ensures StartsWith(a + b, a + x)
  {
    assert (a + b)[..|a + x|] == a + b[..|x|];
  }

  /** Splitting at the first `/` when the text before it holds none. */
  lemma SplitFirstSlash(a: string, b: string)
    requires forall k :: 0 <= k < |a| ==> a[k] != '/'
    ensures Split(a + "/" + b, "/") == [a] + Split(b, "/")
  {
    var s := a + "/" + b;
    assert OccursAt(s, "/", |a|) by {
      assert s[|a|..|a| + 1] == "/";
    }
    forall j | 0 <= j < |a|
      ensures !OccursAt(s, "/", j)
    {
      assert s[j..j + 1][0] == a[j];
    }
    assert IndexOf(s, "/", 0) == Some(|a|);
    assert s[..|a|] == a;
    assert s[|a| + 1..] == b;
  }

  /** A text without `/` is a single piece. */
  lemma SplitNoSlash(a: string)
    requires forall k :: 0 <= k < |a| ==> a[k] != '/'
    ensures Split(a, "/") == [a]
  {
    forall j | 0 <= j < |a|
      ensures !OccursAt(a, "/", j)
    {
      assert a[j..j + 1][0] == a[j];
    }
    assert IndexOf(a, "/", 0).None?;
  }

  /**
   * The base of `scheme://host` followed by nothing or by a path starting
   * with `/` is `scheme://host`.
   */
  lemma BaseUrlOfAbsolute(scheme: string, host: string, path: string)
    requires forall k :: 0 <= k < |scheme| ==> scheme[k] != '/'
    requires forall k :: 0 <= k < |host| ==> host[k] != '/'
    requires path == [] || path[0] == '/'
    ensures BaseUrl(scheme + "//" + host + path) == scheme + "//" + host
  {
    var url := scheme + "//" + host + path;
    var tail := SplitAbsolute(scheme, host, path);
    assert JoinFirst([scheme] + ([[]] + tail), "/", 3) == scheme + "/" + ([] + "/" + host) by {
      JoinFirstCons(scheme, [[]] + tail, "/", 3);
      JoinFirstCons([], tail, "/", 2);
      assert tail[..1] == [host];
    }
    assert scheme + "/" + ([] + "/" + host) == scheme + "//" + host;
  }

  /** The pieces of `scheme://host/path`: the scheme, an empty piece, then those of the host and path. */
  lemma SplitAbsolute(scheme: string, host: string, path: string) returns (tail: seq<string>)
    requires forall k :: 0 <= k < |scheme| ==> scheme[k] != '/'
    requires forall k :: 0 <= k < |host| ==> host[k] != '/'
    requires path == [] || path[0] == '/'
    ensures Split(scheme + "//" + host + path, "/") == [scheme] + ([[]] + tail)
    ensures |tail| >= 1 && tail[0] == host
  {
    tail := HostPieces(host, path);
    var rest := host + path;
    assert scheme + "//" + host + path == scheme + "/" + ("/" + rest);
    SplitFirstSlash(scheme, "/" + rest);
    var empty: string := [];
    assert empty + "/" == "/";
    SplitFirstSlash(empty, rest);
  }

  /** The pieces of `host + path`: the host first. */
  lemma HostPieces(host: string, path: string) returns (tail: seq<string>)
    requires forall k :: 0 <= k < |host| ==> host[k] != '/'
    requires path == [] || path[0] == '/'
    ensures Split(host + path, "/") == tail && |tail| >= 1 && tail[0] == host
  {
    if path == [] {
      assert host + path == host;
      SplitNoSlash(host);
      tail := [host];
    } else {
      assert host + path == host + "/" + path[1..];
      SplitFirstSlash(host, path[1..]);
      tail := [host] + Split(path[1..], "/");
    }
  }

  // ---------------------------------------------------------------- the links

  const BulletinTerms: seq<string> := ["taal", "volcano", "summary", "24hr", "observation"]

  /** The anchor names a 24-hour observation summary of Taal: every term occurs in its lower-cased text. */
  predicate IsBulletinAnchor(text: string)
  {
    forall k :: 0 <= k < |BulletinTerms| ==> Contains(Lower(text), BulletinTerms[k])
  }

  /** `base + ('/' if not href.startswith('/') else '') + href`: exactly one slash joins the base and the rest of the href. */
  function UnderBase(base: string, href: string): (r: string)
    ensures StartsWith(r, base)
    ensures r == base + href || r == base + "/" + href
    ensures |r| > |base| && r[|base|] == '/' <==> StartsWith(href, "/") || r == base + "/" + href
    ensures StartsWith(href, "/") ==> r == base + href
    ensures !StartsWith(href, "/") ==> r == base + "/" + href
    ensures |r| > |base| && r[|base|] == '/' && r[|base| + 1..] == if StartsWith(href, "/") then href[1..] else href
  {
    var r := base + (if StartsWith(href, "/") then "" else "/") + href;
    assert r[..|base|] == base;
    r
  }

  /** The absolute url of a link: an href starting with "http" is kept, any other goes under the base. */
  function LinkUrl(base: string, href: string): (r: string)
    ensures StartsWith(href, "http") ==> r == href
    ensures !StartsWith(href, "http") ==> StartsWith(r, base) && |href| <= |r| && r[|r| - |href|..] == href
    ensures !StartsWith(href, "http") ==> r == UnderBase(base, href)
  {
    if StartsWith(href, "http") then href else UnderBase(base, href)
  }

  /**
   * `is_external`: true unless the href starts with "http" or "//" and
   * contains the base url.
   */
  function IsExternal(base: string, href: string): (r: bool)
    ensures !r <==> (StartsWith(href, "http") || StartsWith(href, "//")) && Contains(href, base)
  {
    !(StartsWith(href, "http") || StartsWith(href, "//")) || !Contains(href, base)
  }

  /** A relative href, which points into the same site, is nevertheless classified external. */
  lemma RelativeLinkIsExternal(base: string, href: string)
    requires !StartsWith(href, "http") && !StartsWith(href, "/")
    ensures IsExternal(base, href)
    ensures LinkUrl(base, href) == base + "/" + href
  {
    if |href| >= 2 {
      assert href[..1] == href[..2][..1];
    }
  }

  /** The links of `anchors` under `base`, in document order. */
  function Links(base: string, anchors: seq<Anchor>): (r: seq<Link>)
    ensures |r| <= |anchors|
  {
    if anchors == [] then []
    else
      var init := anchors[..|anchors| - 1];
      var a := anchors[|anchors| - 1];
      assert anchors == init + [a];
      var r := Links(base, init);
      if IsBulletinAnchor(a.text) then r + [Link(LinkUrl(base, a.href), a.text, IsExternal(base, a.href))]
      else r
  }

  /** The link an anchor becomes. */
  function LinkOf(base: string, a: Anchor): Link
  {
    Link(LinkUrl(base, a.href), a.text, IsExternal(base, a.href))
  }

  /**
   * Exactly the bulletin anchors become links: every link comes from a
   * bulletin anchor, and every bulletin anchor gives its link.
   */
  lemma {:induction false} LinksExactly(base: string, anchors: seq<Anchor>)
    ensures forall l :: l in Links(base, anchors) ==>
              exists a :: a in anchors && IsBulletinAnchor(a.text) && l == LinkOf(base, a)
    ensures forall a :: a in anchors && IsBulletinAnchor(a.text) ==> LinkOf(base, a) in Links(base, anchors)
  {
    if anchors != [] {
      var init := anchors[..|anchors| - 1];
      assert anchors == init + [anchors[|anchors| - 1]];
      LinksExactly(base, init);
    }
  }

  /** Whether every bulletin term occurs in the lower-cased text (the `all(...)` loop). */
  method HasAllTerms(text: string) returns (b: bool)
    ensures b <==> IsBulletinAnchor(text)
  {
    var lower := Lower(text);
    b := true;
    var k := 0;
    while k < |BulletinTerms| && b
      invariant 0 <= k <= |BulletinTerms|
      invariant b <==> forall m :: 0 <= m < k ==> Contains(lower, BulletinTerms[m])
    {
      b := Contains(lower, BulletinTerms[k]);
      k := k + 1;
    }
  }

  /** The loop of `scrape` over the anchors of the page at `url`. */
  method CollectLinks(url: string, anchors: seq<Anchor>) returns (links: seq<Link>)
    ensures links == Links(BaseUrl(url), anchors)
  {
    var base := BaseUrl(url);
    links := [];
    var i := 0;
    while i < |anchors|
      invariant 0 <= i <= |anchors|
      invariant links == Links(base, anchors[..i])
    {
      var a := anchors[i];
      LinksStep(base, anchors, i);
      var keep := HasAllTerms(a.text);
      if keep {
        var full := if StartsWith(a.href, "http") then a.href else UnderBase(base, a.href);
        links := links + [Link(full, a.text, IsExternal(base, a.href))];
      }
      i := i + 1;
    }
    assert anchors[..|anchors|] == anchors;
  }

  /** One more anchor adds its link when it is a bulletin anchor, and nothing otherwise. */
  lemma LinksStep(base: string, anchors: seq<Anchor>, i: nat)
    requires i < |anchors|
    ensures IsBulletinAnchor(anchors[i].text) ==> Links(base, anchors[..i + 1]) == Links(base, anchors[..i]) + [LinkOf(base, anchors[i])]
    ensures !IsBulletinAnchor(anchors[i].text) ==> Links(base, anchors[..i + 1]) == Links(base, anchors[..i])
  {
    var prefix := anchors[..i + 1];
    assert prefix[..|prefix| - 1] == anchors[..i];
  }

  /** `bulk_scrape` keeps the url and text of the same anchors, without the external flag. */
  function BulletinLinks(url: string, anchors: seq<Anchor>): (r: seq<(string, string)>)
    ensures |r| == |Links(BaseUrl(url), anchors)|
    ensures forall k :: 0 <= k < |r| ==> r[k] == (Links(BaseUrl(url), anchors)[k].url, Links(BaseUrl(url), anchors)[k].text)
  {
    var ls := Links(BaseUrl(url), anchors);
    seq(|ls|, k requires 0 <= k < |ls| => (ls[k].url, ls[k].text))
  }

  // --------------------------------------------------------- iframe and images

  /** The src starts with "http://" or "https://". */
  predicate IsAbsolute(src: string)
  {
    StartsWith(src, "http://") || StartsWith(src, "https://")
  }

  /** An iframe or image src made absolute: kept when absolute, otherwise put under `base`. */
  function AbsoluteSrc(base: string, src: string): (r: string)
    ensures IsAbsolute(src) ==> r == src
    ensures !IsAbsolute(src) ==> StartsWith(r, base)
  {
    if IsAbsolute(src) then src else UnderBase(base, src)
  }

  /** Making a src absolute twice is making it absolute once, when the base itself is absolute. */
  lemma AbsoluteSrcIdempotent(base: string, src: string)
    requires IsAbsolute(base)
    ensures IsAbsolute(AbsoluteSrc(base, src))
    ensures AbsoluteSrc(base, AbsoluteSrc(base, src)) == AbsoluteSrc(base, src)
  {
    var r := AbsoluteSrc(base, src);
    if !IsAbsolute(src) {
      assert r[..|base|] == base;
      if StartsWith(base, "http://") {
        assert r[..7] == base[..7];
      } else {
        assert r[..8] == base[..8];
      }
    }
  }

  /** The image urls of the iframe page at `frameSrc`, from the `src` of each `<img>` that has one. */
  function ImageUrls(frameSrc: string, srcs: seq<Option<string>>): (r: seq<string>)
    ensures |r| <= |srcs|
    ensures forall x :: x in r ==> exists s :: Some(s) in srcs && x == AbsoluteSrc(BaseUrl(frameSrc), s)
    ensures forall s :: Some(s) in srcs ==> AbsoluteSrc(BaseUrl(frameSrc), s) in r
    ensures |srcs| == 1 ==> r == if srcs[0].Some? then [AbsoluteSrc(BaseUrl(frameSrc), srcs[0].value)] else []
  {
    if srcs == [] then []
    else
      var init := srcs[..|srcs| - 1];
      var last := srcs[|srcs| - 1];
      assert srcs == init + [last];
      var r := ImageUrls(frameSrc, init);
      match last
      case Some(s) => r + [AbsoluteSrc(BaseUrl(frameSrc), s)]
      case None => r
  }

  /** The urls of two runs of images are those of the first run, then those of the second. */
  lemma {:induction false} ImageUrlsAppend(frameSrc: string, a: seq<Option<string>>, b: seq<Option<string>>)
    ensures ImageUrls(frameSrc, a + b) == ImageUrls(frameSrc, a) + ImageUrls(frameSrc, b)
    decreases |b|
  {
    if b == [] {
      assert a + b == a;
    } else {
      var init, last := b[..|b| - 1], b[|b| - 1];
      ImageUrlsAppend(frameSrc, a, init);
      assert (a + b)[..|a + b| - 1] == a + init;
      assert (a + b)[|a + b| - 1] == last;
      var tail := if last.Some? then [AbsoluteSrc(BaseUrl(frameSrc), last.value)] else [];
      assert ImageUrls(frameSrc, b) == ImageUrls(frameSrc, init) + tail;
      assert ImageUrls(frameSrc, a + b) == ImageUrls(frameSrc, a + init) + tail;
    }
  }

  /** The image loop of `scrape`: one url for each image with a src, in order. */
  method CollectImages(frameSrc: string, srcs: seq<Option<string>>) returns (images: seq<string>)
    ensures images == ImageUrls(frameSrc, srcs)
  {
    images := [];
    var i := 0;
    while i < |srcs|
      invariant 0 <= i <= |srcs|
      invariant images == ImageUrls(frameSrc, srcs[..i])
    {
      assert srcs[..i + 1] == srcs[..i] + [srcs[i]];
      if srcs[i].Some? {
        var src := srcs[i].value;
        if !IsAbsolute(src) {
          var imgBase := BaseUrl(frameSrc);
          src := UnderBase(imgBase, src);
        }
        images := images + [src];
      }
      i := i + 1;
    }
    assert srcs[..|srcs|] == srcs;
  }

  /**
   * What the deep scrape records about the iframe: its fetched content with
   * the data parsed from its text (`None` for the `{}` of an empty text), or
   * the failure of the request. A malformed gas figure makes
   * `parse_volcanic_data` raise a `ValueError`, which the request handler
   * does not catch: the whole scrape then fails with its generic error.
   */
  datatype IframeOutcome =
    | IframeFetched(url: string, images: seq<string>, text: string, volcanicData: Option<BulletinText.VolcanicData>)
    | IframeFailed(url: string, error: string)
    | ScrapeFailed

  /**
   * The iframe entry for an iframe whose `src` is `src` on the page at
   * `url`: the fetch is a parameter, either the iframe page (its image srcs
   * and text) or the message of the request error.
   */
  method IframeContent(url: string, src: string, fetched: Result<(seq<Option<string>>, string), string>)
    returns (r: IframeOutcome)
    ensures var frameSrc := AbsoluteSrc(BaseUrl(url), src);
      match fetched
      case Failure(e) => r == IframeFailed(frameSrc, "Failed to fetch iframe content: " + e)
      case Success(page) =>
        if page.1 != [] && BulletinText.GasEmissions(Lower(page.1)).Failure? then r == ScrapeFailed
        else r == IframeFetched(frameSrc, ImageUrls(frameSrc, page.0), page.1,
                                if page.1 == [] then None else Some(BulletinText.FieldsOf(page.1)))
  {
    var frameSrc := AbsoluteSrc(BaseUrl(url), src);
    match fetched
    case Failure(e) =>
      r := IframeFailed(frameSrc, "Failed to fetch iframe content: " + e);
    case Success(page) =>
      var images := CollectImages(frameSrc, page.0);
      var data := BulletinText.ParseVolcanicData(page.1);
      match data
      case FloatError(_) =>
        r := ScrapeFailed;
      case NoText =>
        r := IframeFetched(frameSrc, images, page.1, None);
      case Parsed(d) =>
        r := IframeFetched(frameSrc, images, page.1, Some(d));
  }
}
