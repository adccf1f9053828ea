/**
 * The mirror side of `AnnaDownloader`: the catalogue page's link filter
 * (`get_download_links`), the three link heuristics and the retry policy of
 * `download_from_libgen`, and the mirror order built by the legacy `download`.
 *
 * HTML is replaced by what the parser extracts from it (the anchors with an `href`,
 * in page order, and the title texts); `urljoin`, `urlparse(...).netloc`,
 * `unquote(urlparse(...).path)` and `unquote` are the functions of a `UrlOps` value.
 */
module Mirrors {
  import opened Wrappers
  import opened Text
  import Md5
  import Naming

  /**
   * An `<a href=...>` element: its `href` and the text strings inside it in document
   * order, one per text node (`<a>Get <b>it</b></a>` holds `["Get ", "it"]`).
   */
  datatype Anchor = Anchor(href: string, strings: seq<string>)

  /** `tag.get_text()`: the strings run together. */
  function GetText(strings: seq<string>): string {
    if strings == [] then "" else strings[0] + GetText(strings[1..])
  }

  /** `tag.get_text(strip=True)`: each string stripped, the empty ones dropped, no separator. */
  function GetTextStripped(strings: seq<string>): (r: string)
    ensures r == [] || (!IsSpace(r[0]) && !IsSpace(r[|r| - 1]))
  {
    if strings == [] then ""
    else StripEnds(strings[0]); Strip(strings[0]) + GetTextStripped(strings[1..])
  }

  /** Stripping happens per text node: the space between two nodes is lost. */
  lemma StrippedTextJoinsNodes()
    ensures GetTextStripped(["Get ", "it"]) == "Getit"
    ensures Strip(GetText(["Get ", "it"])) == "Get it"
  {
    assert TrimLeft("Get ") == "Get ";
    assert "Get "[..3] == "Get";
    assert TrimRight("Get ") == "Get";
    assert TrimLeft("it") == "it" && TrimRight("it") == "it";
    assert GetTextStripped(["Get ", "it"][1..]) == "it";
    assert GetText(["Get ", "it"][1..]) == "it";
    assert GetText(["Get ", "it"]) == "Get it";
    assert TrimLeft("Get it") == "Get it" && TrimRight("Get it") == "Get it";
  }

  /**
   * A parsed page: the stripped text of the first `div` whose class holds `text-3xl`,
   * of the first `h1`, and the anchors that carry an `href`.
   */
  datatype Page = Page(mainTitle: Option<string>, h1: Option<string>, anchors: seq<Anchor>)

  /** A page fetch: a transport failure or an HTTP answer with its parsed body. */
  datatype PageReply = PageFailed | PageAnswer(status: nat, page: Page)

  datatype UrlOps = UrlOps(join: (string, string) -> string, host: string -> string, path: string -> string,
                           unquote: string -> string)

  /** One entry of `download_links`: absolute URL, stripped text, network location. */
  datatype Link = Link(url: string, text: string, domain: string)

  const MirrorDomains: seq<string> := [
    "libgen.li", "libgen.is", "libgen.st", "library.lol", "download.library.lol",
    "zlibrary", "z-lib", "sci-hub", "nexusstc"]

  predicate RaisesForStatus(status: nat) {
    400 <= status < 600
  }

  // ---------------------------------------------------------------- get_download_links

  function CatalogUrl(md5: string): string {
    Md5.CatalogPrefix + md5
  }

  /** The `href` names a known mirror (a case-sensitive substring test). */
  predicate MirrorHref(href: string) {
    AnyContained(href, MirrorDomains)
  }

  /** `any(sub in s for sub in subs)` */
  predicate AnyContained(s: string, subs: seq<string>) {
    subs != [] && (Contains(s, subs[0]) || AnyContained(s, subs[1..]))
  }

  function ToLink(base: string, ops: UrlOps, a: Anchor): Link {
    var u := ops.join(base, a.href);
    Link(u, GetTextStripped(a.strings), ops.host(u))
  }

  /** The anchors that name a mirror, as links, in page order. */
  function FilterLinks(base: string, ops: UrlOps, anchors: seq<Anchor>): (r: seq<Link>)
    ensures |r| <= |anchors|
    ensures forall l :: l in r ==> l.text == [] || (!IsSpace(l.text[0]) && !IsSpace(l.text[|l.text| - 1]))
  {
    if anchors == [] then []
    else
      (if MirrorHref(anchors[0].href) then [ToLink(base, ops, anchors[0])] else [])
      + FilterLinks(base, ops, anchors[1..])
  }

  /** Main title, else first `h1`, else "Unknown". */
  function PageTitle(p: Page): string {
    if p.mainTitle.Some? then p.mainTitle.value
    else if p.h1.Some? then p.h1.value
    else "Unknown"
  }

  /** `get_download_links(md5)`: the title and the mirror links, or `(None, [])` when the fetch fails. */
  function DownloadLinks(md5: string, reply: PageReply, ops: UrlOps): (Option<string>, seq<Link>) {
    if reply.PageFailed? || RaisesForStatus(reply.status) then (None, [])
    else (Some(PageTitle(reply.page)), FilterLinks(CatalogUrl(md5), ops, reply.page.anchors))
  }

  /** The loop of `get_download_links`, over the page's anchors. */
  method GetDownloadLinks(md5: string, reply: PageReply, ops: UrlOps) returns (title: Option<string>, links: seq<Link>)
    ensures (title, links) == DownloadLinks(md5, reply, ops)
  {
    if reply.PageFailed? || RaisesForStatus(reply.status) {
      return None, [];
    }
    var url := CatalogUrl(md5);
    var anchors := reply.page.anchors;
    title := Some(PageTitle(reply.page));
    links := [];
    for i := 0 to |anchors|
      invariant links == FilterLinks(url, ops, anchors[..i])
    {
      var link := ToLink(url, ops, anchors[i]);
      var mirror := MirrorHref(anchors[i].href);
      assert anchors[..i + 1] == anchors[..i] + [anchors[i]];
      FilterLinksAppend(url, ops, anchors[..i], [anchors[i]]);
      assert FilterLinks(url, ops, [anchors[i]]) == if mirror then [link] else [] by {
        assert [anchors[i]][1..] == [];
      }
      if mirror {
        links := links + [link];
      }
    }
    assert anchors[..|anchors|] == anchors;
  }

  /** Every link comes from a mirror anchor, and every mirror anchor gives a link. */
  lemma {:induction false} FilterLinksExactly(base: string, ops: UrlOps, anchors: seq<Anchor>)
    ensures forall l :: l in FilterLinks(base, ops, anchors) <==>
      exists a :: a in anchors && MirrorHref(a.href) && l == ToLink(base, ops, a)
  {
    if anchors != [] {
      var rest := anchors[1..];
      FilterLinksExactly(base, ops, rest);
      var h := if MirrorHref(anchors[0].href) then [ToLink(base, ops, anchors[0])] else [];
      assert FilterLinks(base, ops, anchors) == h + FilterLinks(base, ops, rest);
      forall l ensures l in FilterLinks(base, ops, anchors) <==>
        exists a :: a in anchors && MirrorHref(a.href) && l == ToLink(base, ops, a)
      {
        if l in h {
          assert anchors[0] in anchors;
        } else if l in FilterLinks(base, ops, rest) {
          var a :| a in rest && MirrorHref(a.href) && l == ToLink(base, ops, a);
          assert a in anchors;
        }
        if exists a :: a in anchors && MirrorHref(a.href) && l == ToLink(base, ops, a) {
          var a :| a in anchors && MirrorHref(a.href) && l == ToLink(base, ops, a);
          if a != anchors[0] {
            assert a in rest;
          }
        }
      }
    }
  }

  /** Page order is kept: the links of two runs of anchors are the two lists end to end. */
  lemma {:induction false} FilterLinksAppend(base: string, ops: UrlOps, xs: seq<Anchor>, ys: seq<Anchor>)
    ensures FilterLinks(base, ops, xs + ys) == FilterLinks(base, ops, xs) + FilterLinks(base, ops, ys)
  {
    if xs != [] {
      var h := if MirrorHref(xs[0].href) then [ToLink(base, ops, xs[0])] else [];
      assert (xs + ys)[0] == xs[0];
      assert (xs + ys)[1..] == xs[1..] + ys;
      FilterLinksAppend(base, ops, xs[1..], ys);
      calc {
        FilterLinks(base, ops, xs + ys);
        h + FilterLinks(base, ops, xs[1..] + ys);
        h + (FilterLinks(base, ops, xs[1..]) + FilterLinks(base, ops, ys));
        (h + FilterLinks(base, ops, xs[1..])) + FilterLinks(base, ops, ys);
      }
    } else {
      assert xs + ys == ys;
    }
  }

  /** A failed catalogue fetch gives no title at all (not "Unknown") and no links. */
  lemma DownloadLinksFailure(md5: string, reply: PageReply, ops: UrlOps)
    requires reply.PageFailed? || RaisesForStatus(reply.status)
    ensures DownloadLinks(md5, reply, ops) == (None, [])
  {
  }

  /** A page that loads always has a title; "Unknown" only when neither title element exists. */
  lemma DownloadLinksTitle(md5: string, status: nat, p: Page, ops: UrlOps)
    requires !RaisesForStatus(status)
    ensures var (t, _) := DownloadLinks(md5, PageAnswer(status, p), ops);
      t.Some? && (t.value == "Unknown" <==> (p.mainTitle.None? && p.h1.None?) ||
                                            p.mainTitle == Some("Unknown") ||
                                            (p.mainTitle.None? && p.h1 == Some("Unknown")))
  {
  }

  // ---------------------------------------------------------------- link heuristics

  /** Method 1: a `get.php` or `main.php` link. */
  predicate GetPhp(a: Anchor) {
    Contains(a.href, "get.php") || Contains(a.href, "main.php")
  }

  /** Method 2: text holding "download" (ignoring case) and an `href` without `file.php`. */
  predicate DownloadText(a: Anchor) {
    Contains(Lower(GetText(a.strings)), "download") && !Contains(a.href, "file.php")
  }

  /** Method 3: an `href` holding one of the listed file extensions (ignoring case). */
  predicate FileHref(a: Anchor) {
    AnyContained(Lower(a.href), Naming.ListedExtensions)
  }

  predicate Matches(a: Anchor, m: nat) {
    if m == 1 then GetPhp(a) else if m == 2 then DownloadText(a) else FileHref(a)
  }

  /** The first anchor, in page order, that heuristic `m` accepts. */
  function FirstMatch(anchors: seq<Anchor>, m: nat): (r: Option<nat>)
    ensures r.Some? ==> r.value < |anchors| && Matches(anchors[r.value], m)
    ensures r.Some? ==> forall j :: 0 <= j < r.value ==> !Matches(anchors[j], m)
    ensures r.None? ==> forall j :: 0 <= j < |anchors| ==> !Matches(anchors[j], m)
  {
    if anchors == [] then None
    else if Matches(anchors[0], m) then Some(0)
    else match FirstMatch(anchors[1..], m)
      case Some(i) => Some(i + 1)
      case None => None
  }

  /** An `href` that does not start with `http` is resolved against the mirror page URL. */
  function Resolve(base: string, href: string, ops: UrlOps): string {
    if StartsWith(href, "http") then href else ops.join(base, href)
  }

  /** What heuristic `m` yields: the resolved `href` of its first match. */
  function Candidate(base: string, anchors: seq<Anchor>, ops: UrlOps, m: nat): Option<string> {
    match FirstMatch(anchors, m)
    case Some(i) => Some(Resolve(base, anchors[i].href, ops))
    case None => None
  }

  predicate Truthy(o: Option<string>) {
    o.Some? && o.value != ""
  }

  /** The link `download_from_libgen` follows: the first truthy result of methods 1, 2, 3. */
  function PickLink(base: string, anchors: seq<Anchor>, ops: UrlOps): (r: Option<string>)
    ensures r.Some? ==> r.value != ""
  {
    var c1 := Candidate(base, anchors, ops, 1);
    var c2 := Candidate(base, anchors, ops, 2);
    var c3 := Candidate(base, anchors, ops, 3);
    if Truthy(c1) then c1 else if Truthy(c2) then c2 else if Truthy(c3) then c3 else None
  }

  /** `FirstMatch` as the source's `for ... break` loop. */
  method FirstMatching(anchors: seq<Anchor>, m: nat) returns (r: Option<nat>)
    ensures r == FirstMatch(anchors, m)
  {
    var i := 0;
    while i < |anchors|
      invariant 0 <= i <= |anchors|
      invariant forall j :: 0 <= j < i ==> !Matches(anchors[j], m)
    {
      if Matches(anchors[i], m) {
        FirstMatchIsFirst(anchors, m, i);
        return Some(i);
      }
      i := i + 1;
    }
    FirstMatchIsFirst(anchors, m, |anchors|);
    return None;
  }

  /** `FirstMatch` is the least accepted index. */
  lemma FirstMatchIsFirst(anchors: seq<Anchor>, m: nat, i: nat)
    requires i <= |anchors| && forall j :: 0 <= j < i ==> !Matches(anchors[j], m)
    requires i < |anchors| ==> Matches(anchors[i], m)
    ensures FirstMatch(anchors, m) == if i < |anchors| then Some(i) else None
  {
  }

  /** The three loops of `download_from_libgen` that look for the download link. */
  method FindDownloadLink(base: string, anchors: seq<Anchor>, ops: UrlOps) returns (link: Option<string>)
    ensures link == PickLink(base, anchors, ops)
  {
    link := None;
    var m := 1;
    while m <= 3 && !Truthy(link)
      invariant 1 <= m <= 4
      invariant link == (if m == 1 then None else Candidate(base, anchors, ops, m - 1))
      invariant m >= 2 && !Truthy(link) ==> !Truthy(Candidate(base, anchors, ops, 1))
      invariant m >= 3 && !Truthy(link) ==> !Truthy(Candidate(base, anchors, ops, 2))
      invariant Truthy(link) ==> m >= 2 && link == PickLink(base, anchors, ops)
      invariant m == 4 ==> !Truthy(link) ==> PickLink(base, anchors, ops) == None
    {
      var i := FirstMatching(anchors, m);
      link := if i.Some? then Some(Resolve(base, anchors[i.value].href, ops)) else None;
      m := m + 1;
    }
    if !Truthy(link) {
      link := None;
    }
  }

  /** Method 1 wins whenever it finds a usable link, whatever methods 2 and 3 would find. */
  lemma PickPrefersGetPhp(base: string, anchors: seq<Anchor>, ops: UrlOps, i: nat)
    requires i < |anchors| && GetPhp(anchors[i]) && forall j :: 0 <= j < i ==> !GetPhp(anchors[j])
    requires Resolve(base, anchors[i].href, ops) != ""
    ensures PickLink(base, anchors, ops) == Some(Resolve(base, anchors[i].href, ops))
  {
    FirstMatchIsFirst(anchors, 1, i);
  }

  /** Without a `get.php`/`main.php` link, the first "download" anchor that is not `file.php` wins. */
  lemma PickFallsBackToText(base: string, anchors: seq<Anchor>, ops: UrlOps, i: nat)
    requires forall j :: 0 <= j < |anchors| ==> !GetPhp(anchors[j])
    requires i < |anchors| && DownloadText(anchors[i]) && forall j :: 0 <= j < i ==> !DownloadText(anchors[j])
    requires Resolve(base, anchors[i].href, ops) != ""
    ensures PickLink(base, anchors, ops) == Some(Resolve(base, anchors[i].href, ops))
  {
    FirstMatchIsFirst(anchors, 1, |anchors|);
    FirstMatchIsFirst(anchors, 2, i);
  }

  /** When no heuristic accepts any anchor there is no link. */
  lemma PickNone(base: string, anchors: seq<Anchor>, ops: UrlOps)
    requires forall j :: 0 <= j < |anchors| ==> !GetPhp(anchors[j]) && !DownloadText(anchors[j]) && !FileHref(anchors[j])
    ensures PickLink(base, anchors, ops) == None
  {
    FirstMatchIsFirst(anchors, 1, |anchors|);
    FirstMatchIsFirst(anchors, 2, |anchors|);
    FirstMatchIsFirst(anchors, 3, |anchors|);
  }

  // ---------------------------------------------------------------- retry policy

  function Pow2(k: nat): (r: nat)
    ensures r >= 1
  {
    if k == 0 then 1 else 2 * Pow2(k - 1)
  }

  function PageAt(pages: seq<PageReply>, a: nat): PageReply {
    if a < |pages| then pages[a] else PageFailed
  }

  /** Attempt `a` is retried: a transport failure, a 500, or any status `raise_for_status` rejects. */
  predicate Retryable(p: PageReply) {
    p.PageFailed? || p.status == 500 || RaisesForStatus(p.status)
  }

  /** The page work of `download_from_libgen`: fetches made, waits slept, link found. */
  datatype Plan = Plan(fetches: nat, waits: seq<nat>, link: Option<string>)

  /**
   * The retry loop from attempt `a` of `n`: the a-th page fetch receives `pages[a]`; a
   * retryable answer sleeps `2^a` seconds before the next attempt, except on the last one.
   */
  function LibgenFrom(mirrorUrl: string, pages: seq<PageReply>, ops: UrlOps, a: nat, n: nat, waits: seq<nat>): (r: Plan)
    decreases n - a
  {
    if a >= n then Plan(a, waits, None)
    else if Retryable(PageAt(pages, a)) then
      if a < n - 1 then LibgenFrom(mirrorUrl, pages, ops, a + 1, n, waits + [Pow2(a)])
      else Plan(a + 1, waits, None)
    else Plan(a + 1, waits, PickLink(mirrorUrl, PageAt(pages, a).page.anchors, ops))
  }

  function Libgen(mirrorUrl: string, pages: seq<PageReply>, ops: UrlOps, n: nat): Plan {
    LibgenFrom(mirrorUrl, pages, ops, 0, n, [])
  }

  /** At most `retry_on_500` fetches; the i-th wait is `2^i`; there is one wait fewer than fetches. */
  lemma {:induction false} LibgenFromBounds(mirrorUrl: string, pages: seq<PageReply>, ops: UrlOps, a: nat, n: nat, waits: seq<nat>)
    requires |waits| == a && forall i :: 0 <= i < a ==> waits[i] == Pow2(i)
    ensures var r := LibgenFrom(mirrorUrl, pages, ops, a, n, waits);
      (a < n ==> a < r.fetches <= n && |r.waits| == r.fetches - 1)
      && (a >= n ==> r.fetches == a && r.waits == waits)
      && forall i :: 0 <= i < |r.waits| ==> r.waits[i] == Pow2(i)
    decreases n - a
  {
    if a < n && Retryable(PageAt(pages, a)) && a < n - 1 {
      LibgenFromBounds(mirrorUrl, pages, ops, a + 1, n, waits + [Pow2(a)]);
    }
  }

  lemma LibgenBounds(mirrorUrl: string, pages: seq<PageReply>, ops: UrlOps, n: nat)
    ensures var r := Libgen(mirrorUrl, pages, ops, n);
      r.fetches <= n && (n > 0 ==> r.fetches >= 1 && |r.waits| == r.fetches - 1)
      && forall i :: 0 <= i < |r.waits| ==> r.waits[i] == Pow2(i)
  {
    LibgenFromBounds(mirrorUrl, pages, ops, 0, n, []);
  }

  /**
   * The first page that loads decides: its link, or None with no further fetch when no
   * heuristic finds one. Earlier pages were all retried.
   */
  lemma {:induction false} LibgenFirstLoaded(mirrorUrl: string, pages: seq<PageReply>, ops: UrlOps, a: nat, n: nat, waits: seq<nat>, k: nat)
    requires a <= k < n && !Retryable(PageAt(pages, k))
    requires forall j :: a <= j < k ==> Retryable(PageAt(pages, j))
    ensures LibgenFrom(mirrorUrl, pages, ops, a, n, waits).fetches == k + 1
    ensures LibgenFrom(mirrorUrl, pages, ops, a, n, waits).link == PickLink(mirrorUrl, PageAt(pages, k).page.anchors, ops)
    decreases k - a
  {
    if a < k {
      LibgenFirstLoaded(mirrorUrl, pages, ops, a + 1, n, waits + [Pow2(a)], k);
    }
  }

  /** When every attempt is retryable the mirror gives no link after exactly `n` fetches. */
  lemma {:induction false} LibgenAllFail(mirrorUrl: string, pages: seq<PageReply>, ops: UrlOps, a: nat, n: nat, waits: seq<nat>)
    requires a < n && forall j :: a <= j < n ==> Retryable(PageAt(pages, j))
    ensures LibgenFrom(mirrorUrl, pages, ops, a, n, waits).link == None
    ensures LibgenFrom(mirrorUrl, pages, ops, a, n, waits).fetches == n
    decreases n - a
  {
    if a < n - 1 {
      LibgenAllFail(mirrorUrl, pages, ops, a + 1, n, waits + [Pow2(a)]);
    }
  }

  /** As written, a 404 on the mirror page is retried like a 500 (after a 1 s wait). */
  lemma LibgenRetries404(mirrorUrl: string, p: Page, ops: UrlOps)
    ensures Libgen(mirrorUrl, [PageAnswer(404, Page(None, None, [])), PageAnswer(200, p)], ops, 3)
      == Plan(2, [1], PickLink(mirrorUrl, p.anchors, ops))
  {
  }

  // ---------------------------------------------------------------- legacy mirror order

  predicate Prefers(l: Link, prefer: string) {
    Contains(Lower(l.domain), Lower(prefer))
  }

  /** The links whose domain holds the preference, ignoring case, in list order. */
  function Preferred(links: seq<Link>, prefer: string): (r: seq<Link>)
    ensures forall l :: l in r <==> l in links && Prefers(l, prefer)
  {
    if links == [] then []
    else (if Prefers(links[0], prefer) then [links[0]] else []) + Preferred(links[1..], prefer)
  }

  /** `for link in links: if link not in acc: acc.append(link)` */
  function AddMissing(acc: seq<Link>, links: seq<Link>): seq<Link>
    decreases |links|
  {
    if links == [] then acc
    else AddMissing(if links[0] in acc then acc else acc + [links[0]], links[1..])
  }

  /** `mirrors_to_try` of the legacy `download`. */
  function LegacyOrder(links: seq<Link>, prefer: Option<string>): seq<Link> {
    if prefer.Some? && prefer.value != "" then AddMissing(Preferred(links, prefer.value), links)
    else links
  }

  lemma {:induction false} AddMissingShape(acc: seq<Link>, links: seq<Link>)
    ensures |acc| <= |AddMissing(acc, links)| && AddMissing(acc, links)[..|acc|] == acc
    ensures forall l :: l in AddMissing(acc, links) <==> l in acc || l in links
    ensures forall i, j :: |acc| <= i < j < |AddMissing(acc, links)| ==>
      AddMissing(acc, links)[i] != AddMissing(acc, links)[j]
    ensures forall i :: |acc| <= i < |AddMissing(acc, links)| ==> AddMissing(acc, links)[i] !in acc
    decreases |links|
  {
    if links != [] {
      var acc' := if links[0] in acc then acc else acc + [links[0]];
      AddMissingShape(acc', links[1..]);
      var r := AddMissing(acc', links[1..]);
      assert r[..|acc|] == r[..|acc'|][..|acc|];
      forall l ensures l in r <==> l in acc || l in links {
        if l in links && l != links[0] {
          assert l in links[1..];
        }
      }
      forall i | |acc| <= i < |r| ensures r[i] !in acc {
        if i < |acc'| {
          assert r[i] == acc'[i];
        }
      }
      forall i, j | |acc| <= i < j < |r| ensures r[i] != r[j] {
        if i < |acc'| && j >= |acc'| {
          assert r[i] == acc'[i] && r[i] in acc';
        } else if i < |acc'| && j < |acc'| {
          assert false;
        }
      }
    }
  }

  /**
   * With a preference, the preferred links come first in list order, followed by the
   * others; every link is tried, nothing else is, and no non-preferred link twice.
   */
  lemma LegacyOrderShape(links: seq<Link>, prefer: string)
    requires prefer != ""
    ensures var r := LegacyOrder(links, Some(prefer));
      |Preferred(links, prefer)| <= |r| && r[..|Preferred(links, prefer)|] == Preferred(links, prefer)
      && (forall l :: l in r <==> l in links)
      && (forall i :: |Preferred(links, prefer)| <= i < |r| ==> !Prefers(r[i], prefer))
      && (forall i, j :: |Preferred(links, prefer)| <= i < j < |r| ==> r[i] != r[j])
  {
    var p := Preferred(links, prefer);
    AddMissingShape(p, links);
    var r := AddMissing(p, links);
    forall i | |p| <= i < |r| ensures !Prefers(r[i], prefer) {
      assert r[i] !in p && r[i] in links;
    }
  }

  /** As written, a non-preferred link listed twice is tried only once. */
  lemma LegacyOrderDropsDuplicate(l: Link, prefer: string)
    requires prefer != "" && !Prefers(l, prefer)
    ensures LegacyOrder([l, l], Some(prefer)) == [l]
  {
    assert [l, l][1..] == [l] && [l][1..] == [];
    assert Preferred([l], prefer) == [];
    assert Preferred([l, l], prefer) == [];
    var none: seq<Link> := [];
    assert l !in none && none + [l] == [l];
    assert AddMissing(none, [l, l]) == AddMissing([l], [l]);
    assert AddMissing([l], [l]) == AddMissing([l], []);
  }
}
