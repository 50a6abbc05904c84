/** The sequential logic of `ApiDocCrawler` (src/crawler/crawler.py): the
    outbound-link filter, the fetch acceptance test, the site-title fallback,
    the per-domain politeness wait and the per-dequeue step of a worker over
    the visited set, the last-access map and the queue. URL resolution
    (`urljoin`) and the netloc of a URL (`urlparse(...).netloc`) are taken as
    function parameters. */
module Crawling {
  import opened Seqs
  import opened Strings
  import opened Dom
  import opened Models
  import Storage

  // ---- the outbound-link filter, `_extract_links` ----

  /** Stripped hrefs starting with one of these are not followed. */
  const RejectedPrefixes: seq<string> := ["#", "javascript:", "mailto:"]

  /** Paths matched case-insensitively anywhere in the cleaned URL. */
  const SkipPatterns: seq<string> :=
    ["/login", "/signup", "/register", "/pricing", "/contact", "/about", "/terms", "/privacy"]

  /** The anchors `find_all` collects: `a` elements that carry an `href`
      attribute, whatever its value. */
  predicate IsLinkAnchor(n: Node) {
    NameIn(n, ["a"]) && n.href.Some?
  }

  function HrefOf(n: Node): string {
    if n.Element? && n.href.Some? then n.href.value else ""
  }

  /** The href of every anchor, in document order. */
  function Hrefs(doc: Node): seq<string> {
    Map(HrefOf, FindAll(doc, IsLinkAnchor))
  }

  /** An href that is empty or starts with one of the rejected prefixes;
      the test is case-sensitive. */
  predicate Rejected(href: string) {
    href == "" || exists k :: 0 <= k < |RejectedPrefixes| && StartsWith(href, RejectedPrefixes[k])
  }

  /** A case-insensitive regular-expression search finds one of the skip
      patterns; they hold no operators and no upper-case letters, so this is
      a substring test on the lower-cased URL. */
  predicate Denied(clean: string) {
    exists k :: 0 <= k < |SkipPatterns| && Contains(Lower(clean), SkipPatterns[k])
  }

  /** The link one anchor's href contributes when the page at `current` is
      being processed, or nothing. */
  function LinkOf(href: string, current: string,
                  join: (string, string) -> string, netloc: string -> string): Option<string>
  {
    var h := Strip(href);
    if Rejected(h) then None
    else
      var absolute := join(current, h);
      if netloc(absolute) != netloc(current) then None
      else
        var clean := BeforeFirst(absolute, '#');
        if Denied(clean) then None else Some(clean)
  }

  /** An href yields a link exactly when, once stripped, it is not rejected,
      its resolution against the current URL keeps the current netloc, and
      that resolution cut at the first `#` holds no denied path; the link is
      that cut resolution, so it holds no `#`. */
  lemma LinkOfSpec(href: string, current: string,
                   join: (string, string) -> string, netloc: string -> string)
    ensures var absolute := join(current, Strip(href));
            LinkOf(href, current, join, netloc).Some?
            <==> !Rejected(Strip(href)) && netloc(absolute) == netloc(current)
                 && !Denied(BeforeFirst(absolute, '#'))
    ensures LinkOf(href, current, join, netloc).Some? ==>
              && LinkOf(href, current, join, netloc).value == BeforeFirst(join(current, Strip(href)), '#')
              && '#' !in LinkOf(href, current, join, netloc).value
  {
  }

  /** The link filter for the page at `current`, as a function of the href. */
  function LinkAt(current: string, join: (string, string) -> string, netloc: string -> string)
    : string -> Option<string>
  {
    href => LinkOf(href, current, join, netloc)
  }

  /** The links a sequence of hrefs contributes, in order, duplicates kept. */
  function Links(hrefs: seq<string>, current: string,
                 join: (string, string) -> string, netloc: string -> string): seq<string>
  {
    Somes(Map(LinkAt(current, join, netloc), hrefs))
  }

  /** Each href is judged on its own, so the links of a concatenation are the
      concatenation of the links: anchor order is kept. */
  lemma LinksAppend(a: seq<string>, b: seq<string>, current: string,
                    join: (string, string) -> string, netloc: string -> string)
    ensures Links(a + b, current, join, netloc) == Links(a, current, join, netloc) + Links(b, current, join, netloc)
  {
    var f := LinkAt(current, join, netloc);
    MapAppend(f, a, b);
    SomesAppend(Map(f, a), Map(f, b));
  }

  /** The links of one more href. */
  lemma LinksStep(hrefs: seq<string>, i: int, current: string,
                  join: (string, string) -> string, netloc: string -> string)
    requires 0 <= i < |hrefs|
    ensures Links(hrefs[..i + 1], current, join, netloc)
            == Links(hrefs[..i], current, join, netloc)
               + match LinkOf(hrefs[i], current, join, netloc) case Some(l) => [l] case None => []
  {
    assert hrefs[..i + 1] == hrefs[..i] + [hrefs[i]];
    LinksAppend(hrefs[..i], [hrefs[i]], current, join, netloc);
    var f := LinkAt(current, join, netloc);
    assert Map(f, [hrefs[i]]) == [LinkOf(hrefs[i], current, join, netloc)];
    SomesSingle(LinkOf(hrefs[i], current, join, netloc));
  }

  /** Every emitted link is the link of one of the hrefs. */
  lemma LinksFrom(hrefs: seq<string>, current: string,
                  join: (string, string) -> string, netloc: string -> string)
    ensures forall l :: l in Links(hrefs, current, join, netloc) ==>
              exists i :: 0 <= i < |hrefs| && LinkOf(hrefs[i], current, join, netloc) == Some(l)
  {
    var f := LinkAt(current, join, netloc);
    SomesIn(Map(f, hrefs));
    forall l | l in Links(hrefs, current, join, netloc)
      ensures exists i :: 0 <= i < |hrefs| && LinkOf(hrefs[i], current, join, netloc) == Some(l)
    {
      var i :| 0 <= i < |hrefs| && Map(f, hrefs)[i] == Some(l);
      assert f(hrefs[i]) == LinkOf(hrefs[i], current, join, netloc);
    }
  }

  /** Every emitted link comes from an href that was not rejected, whose
      resolution stays on the current page's netloc, and is that resolution
      cut at the first `#`; it holds no `#` and no denied path. */
  lemma LinksSound(hrefs: seq<string>, current: string,
                   join: (string, string) -> string, netloc: string -> string)
    ensures forall l :: l in Links(hrefs, current, join, netloc) ==>
              && '#' !in l && !Denied(l)
              && exists i :: && 0 <= i < |hrefs|
                             && !Rejected(Strip(hrefs[i]))
                             && netloc(join(current, Strip(hrefs[i]))) == netloc(current)
                             && l == BeforeFirst(join(current, Strip(hrefs[i])), '#')
  {
    LinksFrom(hrefs, current, join, netloc);
    forall l | l in Links(hrefs, current, join, netloc)
      ensures && '#' !in l && !Denied(l)
              && exists i :: && 0 <= i < |hrefs|
                             && !Rejected(Strip(hrefs[i]))
                             && netloc(join(current, Strip(hrefs[i]))) == netloc(current)
                             && l == BeforeFirst(join(current, Strip(hrefs[i])), '#')
    {
      var i :| 0 <= i < |hrefs| && LinkOf(hrefs[i], current, join, netloc) == Some(l);
      LinkOfSpec(hrefs[i], current, join, netloc);
    }
  }

  /** Every href that passes the filter contributes its link. */
  lemma LinksComplete(hrefs: seq<string>, current: string,
                      join: (string, string) -> string, netloc: string -> string)
    ensures forall i :: 0 <= i < |hrefs| && LinkOf(hrefs[i], current, join, netloc).Some? ==>
              LinkOf(hrefs[i], current, join, netloc).value in Links(hrefs, current, join, netloc)
  {
    var f := LinkAt(current, join, netloc);
    SomesIn(Map(f, hrefs));
    forall i | 0 <= i < |hrefs| && LinkOf(hrefs[i], current, join, netloc).Some?
      ensures LinkOf(hrefs[i], current, join, netloc).value in Links(hrefs, current, join, netloc)
    {
      assert Map(f, hrefs)[i] == LinkOf(hrefs[i], current, join, netloc);
    }
  }

  /** Cutting a URL at its fragment does not change its netloc, so every
      emitted link is on the current page's netloc. */
  lemma SameNetloc(hrefs: seq<string>, current: string,
                   join: (string, string) -> string, netloc: string -> string)
    requires forall u :: netloc(BeforeFirst(u, '#')) == netloc(u)
    ensures forall l :: l in Links(hrefs, current, join, netloc) ==> netloc(l) == netloc(current)
  {
    LinksSound(hrefs, current, join, netloc);
  }

  /** `_extract_links(soup, current_url)`: the hrefs of the anchors, in
      document order, go through the filter loop. */
  method ExtractLinks(doc: Node, current: string,
                      join: (string, string) -> string, netloc: string -> string)
    returns (links: seq<string>)
    ensures links == Links(Hrefs(doc), current, join, netloc)
  {
    links := FilterLinks(Hrefs(doc), current, join, netloc);
  }

  /** The `for a_tag in ...` loop of `_extract_links`, appending each link
      that passes. */
  method FilterLinks(hrefs: seq<string>, current: string,
                     join: (string, string) -> string, netloc: string -> string)
    returns (links: seq<string>)
    ensures links == Links(hrefs, current, join, netloc)
  {
    links := [];
    var i := 0;
    while i < |hrefs|
      invariant 0 <= i <= |hrefs|
      invariant links == Links(hrefs[..i], current, join, netloc)
    {
      LinksStep(hrefs, i, current, join, netloc);
      var link := LinkOf(hrefs[i], current, join, netloc);
      if link.Some? {
        links := links + [link.value];
      }
      i := i + 1;
    }
    assert hrefs[..|hrefs|] == hrefs;
  }

  // ---- `_fetch_url`: which replies count as a page ----

  /** What the HTTP client produced: a network-level failure, or a reply with
      its status, its `Content-Type` header if any, and its decoded text. */
  datatype HttpReply = NetworkError | Reply(status: int, contentType: Option<string>, text: string)

  const HtmlTypes: seq<string> := ["text/html", "application/xhtml+xml"]

  /** The `Content-Type` header, "" when the reply has none. */
  function ContentTypeOf(reply: HttpReply): string
    requires reply.Reply?
  {
    match reply.contentType
    case None => ""
    case Some(t) => t
  }

  predicate IsHtml(contentType: string) {
    exists k :: 0 <= k < |HtmlTypes| && Contains(Lower(contentType), HtmlTypes[k])
  }

  predicate Accepted(reply: HttpReply) {
    reply.Reply? && reply.status == 200 && IsHtml(ContentTypeOf(reply))
  }

  /** The text of an accepted reply, and "" for every other outcome. */
  function FetchBody(reply: HttpReply): (r: string)
    ensures Accepted(reply) ==> r == reply.text
    ensures !Accepted(reply) ==> r == ""
  {
    match reply
    case NetworkError => ""
    case Reply(status, _, text) =>
      if status != 200 then ""
      else if !IsHtml(ContentTypeOf(reply)) then ""
      else text
  }

  /** A reply without a `Content-Type` header is never accepted. */
  lemma MissingContentTypeRejected(status: int, text: string)
    ensures FetchBody(Reply(status, None, text)) == ""
  {
    assert !IsHtml("") by {
      forall k | 0 <= k < |HtmlTypes| ensures !Contains(Lower(""), HtmlTypes[k]) {
        assert |HtmlTypes[k]| > 0;
      }
    }
  }

  // ---- `_get_site_title` ----

  const UnknownTitle := "Unknown API Documentation"

  predicate IsH1(n: Node) {
    NameIn(n, ["h1"])
  }

  /** The title of a site whose front page fetched as `content` and parsed
      as `doc`. */
  function SiteTitle(content: string, doc: Node): string {
    if content == "" then UnknownTitle
    else
      match Find(doc, Parser.IsTitle)
      case Some(t) => Strip(TextOf(t))
      case None =>
        match Find(doc, IsH1)
        case Some(h) => Strip(TextOf(h))
        case None => UnknownTitle
  }

  /** The fallback chain: the first `<title>`, else the first `<h1>`, else the
      fixed "Unknown API Documentation"; an empty fetch goes straight to the
      last. */
  lemma SiteTitleFallback(content: string, doc: Node)
    ensures content == "" ==> SiteTitle(content, doc) == UnknownTitle
    ensures content != "" && FindAll(doc, Parser.IsTitle) != [] ==>
              SiteTitle(content, doc) == Strip(TextOf(FindAll(doc, Parser.IsTitle)[0]))
    ensures content != "" && FindAll(doc, Parser.IsTitle) == [] && FindAll(doc, IsH1) != [] ==>
              SiteTitle(content, doc) == Strip(TextOf(FindAll(doc, IsH1)[0]))
    ensures content != "" && FindAll(doc, Parser.IsTitle) == [] && FindAll(doc, IsH1) == [] ==>
              SiteTitle(content, doc) == UnknownTitle
  {
    FindIsFirstOfFindAll(doc, Parser.IsTitle);
    FindIsFirstOfFindAll(doc, IsH1);
  }

  // ---- the politeness rule ----

  /** What is left of the delay after `elapsed` seconds, never negative. */
  function WaitTime(delay: real, elapsed: real): (w: real)
    ensures w >= 0.0
    ensures elapsed + w >= delay
    ensures elapsed >= delay ==> w == 0.0
    ensures w > 0.0 ==> elapsed + w == delay
  {
    if delay - elapsed > 0.0 then delay - elapsed else 0.0
  }

  /** The wait before fetching from `domain` at time `now`: none for a domain
      never accessed, else what is left of the delay since its last access. */
  function PolitenessWait(lastAccess: map<string, real>, domain: string, delay: real, now: real): (w: real)
    ensures w >= 0.0
    ensures domain !in lastAccess ==> w == 0.0
    ensures domain in lastAccess ==> now + w >= lastAccess[domain] + delay
  {
    if domain in lastAccess then WaitTime(delay, now - lastAccess[domain]) else 0.0
  }

  // ---- the worker's step ----

  /** How one dequeued URL ends. `_process_page` raises on every call (it
      builds an `ApiPage` without its `endpoints` and `schemas` fields), so a
      fetched page always ends in the exception handler. */
  datatype VisitOutcome = Skipped | NotFetched | ProcessingFailed

  class ApiDocCrawler {
    const delay: real
    /** `_visited_urls` */
    var visited: set<string>
    /** `_domain_last_access` */
    var lastAccess: map<string, real>
    /** The contents of the crawl's `asyncio.Queue`, oldest first. */
    var queue: seq<string>
    /** The `max_pages` of the running crawl. */
    var maxPages: int

    /** The page cap holds: no more URLs are visited than `max_pages`. */
    predicate Valid()
      reads this
    {
      visited == {} || |visited| <= maxPages
    }

    constructor(delay: real)
      ensures Valid()
      ensures this.delay == delay
      ensures visited == {} && lastAccess == map[] && queue == []
    {
      this.delay := delay;
      visited := {};
      lastAccess := map[];
      queue := [];
      maxPages := 0;
    }

    /** The start of `crawl(base_url, max_pages)`: the visited set is emptied,
        the site record is stored with the title of the fetched front page,
        and the queue holds the base URL alone. The last-access map is kept
        from any earlier crawl. */
    method Begin(baseUrl: string, maxPages: int, reply: HttpReply, frontPage: Node, now: real,
                 repo: Storage.ApiRepository)
      requires repo.Valid()
      modifies this, repo
      ensures Valid() && repo.Valid()
      ensures visited == {} && queue == [baseUrl] && this.maxPages == maxPages
      ensures lastAccess == old(lastAccess)
      ensures repo.files == old(repo.files)[Storage.SiteInfoFile :=
                Storage.SiteDoc(SiteInfo(baseUrl, SiteTitle(FetchBody(reply), frontPage), now))]
    {
      visited := {};
      this.maxPages := maxPages;
      var title := SiteTitle(FetchBody(reply), frontPage);
      repo.SaveSiteInfo(SiteInfo(baseUrl, title, now));
      queue := [baseUrl];
    }

    /** `queue.get()`, with `None` where the worker would block. */
    method Next() returns (url: Option<string>)
      modifies this
      ensures old(queue) == [] ==> url == None && queue == []
      ensures old(queue) != [] ==> url == Some(old(queue)[0]) && queue == old(queue)[1..]
      ensures visited == old(visited) && lastAccess == old(lastAccess) && maxPages == old(maxPages)
    {
      if queue == [] {
        url := None;
      } else {
        url := Some(queue[0]);
        queue := queue[1..];
      }
    }

    /** One pass of `_worker`'s loop for a dequeued `url`: skip it when it was
        visited or the cap is reached; otherwise mark it visited, wait out the
        politeness delay of its domain, record the access time and fetch.
        `now` is the clock when the wait is computed and `accessed` the clock
        read after the wait (at least `now` plus the wait). */
    method Visit(url: string, netloc: string -> string, now: real, accessed: real, reply: HttpReply)
      returns (outcome: VisitOutcome)
      requires Valid()
      requires accessed >= now + PolitenessWait(lastAccess, netloc(url), delay, now)
      modifies this
      ensures Valid()
      ensures queue == old(queue) && maxPages == old(maxPages)
      ensures outcome == Skipped <==> url in old(visited) || |old(visited)| >= maxPages
      ensures outcome == Skipped ==> visited == old(visited) && lastAccess == old(lastAccess)
      ensures outcome != Skipped ==>
                && visited == old(visited) + {url}
                && lastAccess == old(lastAccess)[netloc(url) := accessed]
                && (outcome == NotFetched <==> FetchBody(reply) == "")
      ensures outcome != Skipped && netloc(url) in old(lastAccess) ==>
                accessed - old(lastAccess)[netloc(url)] >= delay
    {
      if url in visited || |visited| >= maxPages {
        return Skipped;
      }
      visited := visited + {url};
      var domain := netloc(url);
      var wait := PolitenessWait(lastAccess, domain, delay, now);
      lastAccess := lastAccess[domain := accessed];
      var content := FetchBody(reply);
      if content == "" {
        return NotFetched;
      }
      return ProcessingFailed;
    }

    /** `_worker`'s loop run until the queue is empty, one URL at a time:
        `fetch` gives the reply for each URL, and the clock advances only by
        the politeness waits. Every dequeued URL ends up visited unless the
        page cap was reached, and nothing outside the old queue is visited. */
    method Drain(netloc: string -> string, fetch: string -> HttpReply, start: real)
      requires Valid()
      modifies this
      ensures Valid() && queue == [] && maxPages == old(maxPages)
      ensures old(visited) <= visited
      ensures forall u :: u in visited ==> u in old(visited) || u in old(queue)
      ensures forall u :: u in old(queue) ==> u in visited || |visited| >= maxPages
    {
      var now := start;
      ghost var k := 0;
      while queue != []
        invariant Valid() && maxPages == old(maxPages)
        invariant 0 <= k <= |old(queue)| && queue == old(queue)[k..]
        invariant old(visited) <= visited
        invariant forall u :: u in visited ==> u in old(visited) || u in old(queue)
        invariant forall j :: 0 <= j < k ==> old(queue)[j] in visited || |visited| >= maxPages
        decreases |queue|
      {
        var url := Next();
        var wait := PolitenessWait(lastAccess, netloc(url.value), delay, now);
        var outcome := Visit(url.value, netloc, now, now + wait, fetch(url.value));
        assert url.value == old(queue)[k];
        k := k + 1;
        now := now + wait;
      }
      forall u | u in old(queue) ensures u in visited || |visited| >= maxPages {
        var j :| 0 <= j < |old(queue)| && old(queue)[j] == u;
      }
    }

    /** `crawl(base_url, max_pages)`, run by one worker. Since no page is
        ever processed successfully, nothing but the base URL is queued, so
        the base URL is the only page visited, and it is visited whenever the
        cap allows one page. */
    method Crawl(baseUrl: string, maxPages: int, netloc: string -> string, fetch: string -> HttpReply,
                 frontPage: Node, start: real, repo: Storage.ApiRepository)
      requires repo.Valid()
      modifies this, repo
      ensures Valid() && repo.Valid() && queue == []
      ensures visited <= {baseUrl}
      ensures maxPages >= 1 ==> visited == {baseUrl}
      ensures repo.files == old(repo.files)[Storage.SiteInfoFile :=
                Storage.SiteDoc(SiteInfo(baseUrl, SiteTitle(FetchBody(fetch(baseUrl)), frontPage), start))]
    {
      Begin(baseUrl, maxPages, fetch(baseUrl), frontPage, start, repo);
      Drain(netloc, fetch, start);
    }

    /** Lines 120-122 of `_worker`: every discovered link not visited at this
        moment is put on the queue, in order; duplicates in the queue are left
        for the dequeue check. */
    method EnqueueDiscovered(links: seq<string>)
      modifies this
      ensures queue == old(queue) + Unvisited(links, visited)
      ensures visited == old(visited) && lastAccess == old(lastAccess) && maxPages == old(maxPages)
    {
      var i := 0;
      while i < |links|
        invariant 0 <= i <= |links|
        invariant queue == old(queue) + Unvisited(links[..i], visited)
        invariant visited == old(visited) && lastAccess == old(lastAccess) && maxPages == old(maxPages)
      {
        UnvisitedStep(links, i, visited);
        if links[i] !in visited {
          queue := queue + [links[i]];
        }
        i := i + 1;
      }
      assert links[..|links|] == links;
    }
  }

  /** The links not in `visited`, in order. */
  function Unvisited(links: seq<string>, visited: set<string>): (r: seq<string>)
    ensures forall l :: l in r <==> l in links && l !in visited
  {
    if links == [] then []
    else (if links[0] in visited then [] else [links[0]]) + Unvisited(links[1..], visited)
  }

  lemma {:induction false} UnvisitedAppend(a: seq<string>, b: seq<string>, visited: set<string>)
    ensures Unvisited(a + b, visited) == Unvisited(a, visited) + Unvisited(b, visited)
  {
    if a == [] {
      assert a + b == b;
    } else {
      assert (a + b)[0] == a[0] && (a + b)[1..] == a[1..] + b;
      UnvisitedAppend(a[1..], b, visited);
      var head := if a[0] in visited then [] else [a[0]];
      calc {
        Unvisited(a + b, visited);
        head + Unvisited(a[1..] + b, visited);
        head + (Unvisited(a[1..], visited) + Unvisited(b, visited));
        (head + Unvisited(a[1..], visited)) + Unvisited(b, visited);
      }
    }
  }

  lemma UnvisitedStep(links: seq<string>, i: int, visited: set<string>)
    requires 0 <= i < |links|
    ensures Unvisited(links[..i + 1], visited)
            == Unvisited(links[..i], visited) + if links[i] in visited then [] else [links[i]]
  {
    assert links[..i + 1] == links[..i] + [links[i]];
    UnvisitedAppend(links[..i], [links[i]], visited);
    assert [links[i]][1..] == [];
  }

  /** With `max_pages = 1` the seed is the only URL ever processed: whatever
      is dequeued after it is skipped. */
  method SeedOnlyWithCapOne(seed: string, other: string, netloc: string -> string,
                            now: real, reply: HttpReply, frontPage: Node)
    returns (first: VisitOutcome, second: VisitOutcome)
    ensures first != Skipped
    ensures second == Skipped
  {
    var repo := new Storage.ApiRepository(map[]);
    var crawler := new ApiDocCrawler(0.5);
    crawler.Begin(seed, 1, reply, frontPage, now, repo);
    var url := crawler.Next();
    first := crawler.Visit(url.value, netloc, now, now + 1.0, reply);
    var wait := PolitenessWait(crawler.lastAccess, netloc(other), crawler.delay, now + 1.0);
    second := crawler.Visit(other, netloc, now + 1.0, now + 1.0 + wait, reply);
  }
}
