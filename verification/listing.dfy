/**
 * Turning the event listing into records: `parse_page` resolves each event
 * link's URL, skips URLs already seen on the page and builds one record per
 * distinct URL; `scrape` merges pages 1 to 10, appending only records whose
 * URL is not yet present and stopping at the first page that fails, is
 * empty or adds nothing.
 *
 * The HTML layer is abstracted: a page is the sequence of its event links
 * (those whose href looks like `/pageNNN.html`), each with its text, its
 * href, and the texts of the elements following its parent. A page request
 * is a parameter `fetch` that yields, per page number, either such a page
 * or a failure.
 */
module Listing {
  import opened Strings
  import opened IsoDate
  import opened Classify
  import opened DueDate

  const BaseUrl := "https://www.kumamoto-kekkon-kosodate.jp"

  /** `scrape` requests pages 1 to `LastPage`. */
  const LastPage := 10

  /** An event link of the listing, as the HTML layer delivers it. */
  datatype Link = Link(title: string, href: string, hasParent: bool, siblings: seq<string>)

  /** One scraped event record (the dict built by `parse_page`). */
  datatype Event = Event(
    title: string, dateRaw: string, dateIso: string, timeRaw: string,
    location: string, applyInfo: string, category: string, targetAge: string,
    url: string, bodyPreview: string)

  /** The result of requesting one listing page. */
  datatype PageFetch = Fetched(links: seq<Link>) | FetchFailed

  /** `scrape` either returns its records or raises (a failure on page 1 is not caught). */
  datatype ScrapeOutcome = Completed(events: seq<Event>) | Raised

  /** The absolute URL of a link: `href` as is when it starts with "http", else prefixed with the site. */
  function ResolveUrl(href: string): string
  {
    if StartsWith(href, "http") then href else BaseUrl + href
  }

  /**
   * A link's URL is its href exactly when the href starts with "http";
   * otherwise it is the site address followed by the href. Either way it
   * starts with "http".
   */
  lemma ResolveUrlSound(href: string)
    ensures ResolveUrl(href) == href <==> StartsWith(href, "http")
    ensures !StartsWith(href, "http") ==> ResolveUrl(href) == BaseUrl + href
    ensures StartsWith(ResolveUrl(href), "http")
    ensures ResolveUrl(ResolveUrl(href)) == ResolveUrl(href)
  {
    if !StartsWith(href, "http") {
      assert |BaseUrl + href| > |href|;
      assert BaseUrl[0] == 'h' && BaseUrl[1] == 't' && BaseUrl[2] == 't' && BaseUrl[3] == 'p';
      assert (BaseUrl + href)[..4] == "http";
      assert StartsWith(BaseUrl + href, "http");
    }
  }

  /** The record built for a title, a URL and a raw due date. */
  function EventFor(title: string, url: string, dateRaw: string): Event
  {
    Event(title, dateRaw, ToIso(dateRaw), "", "", "", GuessCategory(title), GuessAge(title), url, "")
  }

  /** The record `parse_page` builds for a link. */
  function LinkEvent(link: Link): Event
  {
    EventFor(link.title, ResolveUrl(link.href), Kidate(link.hasParent, link.siblings))
  }

  /** The shape every record has: fields derived from title and raw date, the rest empty. */
  predicate WellFormed(e: Event)
  {
    e.dateIso == ToIso(e.dateRaw) && e.category == GuessCategory(e.title) &&
    e.targetAge == GuessAge(e.title) && e.timeRaw == "" && e.location == "" &&
    e.applyInfo == "" && e.bodyPreview == ""
  }

  /** The URLs of `events`, as a set. */
  function UrlSet(events: seq<Event>): set<string>
    decreases |events|
  {
    if events == [] then {} else UrlSet(events[..|events| - 1]) + {events[|events| - 1].url}
  }

  /** A URL is in the set exactly when some record carries it. */
  lemma {:induction false} UrlSetMembers(events: seq<Event>)
    ensures forall k :: 0 <= k < |events| ==> events[k].url in UrlSet(events)
    ensures forall u :: u in UrlSet(events) ==> exists k :: 0 <= k < |events| && events[k].url == u
    decreases |events|
  {
    if events != [] {
      var n := |events| - 1;
      UrlSetMembers(events[..n]);
      forall u | u in UrlSet(events)
        ensures exists k :: 0 <= k < |events| && events[k].url == u
      {
        if u != events[n].url {
          var k :| 0 <= k < n && events[..n][k].url == u;
          assert events[k].url == u;
        }
      }
    }
  }

  predicate DistinctUrls(events: seq<Event>)
  {
    forall i, j :: 0 <= i < j < |events| ==> events[i].url != events[j].url
  }

  /** The resolved URLs of the links, in link order, repeats included. */
  function Resolved(links: seq<Link>): (urls: seq<string>)
    ensures |urls| == |links|
    decreases |links|
  {
    if links == [] then [] else Resolved(links[..|links| - 1]) + [ResolveUrl(links[|links| - 1].href)]
  }

  /** The position of the first occurrence of `u` in `s`. */
  function FirstIndex(s: seq<string>, u: string): (r: nat)
    requires u in s
    ensures r < |s| && s[r] == u && forall j :: 0 <= j < r ==> s[j] != u
  {
    if s[0] == u then 0 else 1 + FirstIndex(s[1..], u)
  }

  /**
   * The records of one page, as `parse_page`'s loop leaves them after the
   * given links: the last link adds a record unless its URL is already there.
   */
  function Collect(links: seq<Link>): seq<Event>
    decreases |links|
  {
    if links == [] then []
    else
      var prev := Collect(links[..|links| - 1]);
      var link := links[|links| - 1];
      if ResolveUrl(link.href) in UrlSet(prev) then prev else prev + [LinkEvent(link)]
  }

  lemma UrlSetAppend(events: seq<Event>, e: Event)
    ensures UrlSet(events + [e]) == UrlSet(events) + {e.url}
  {
    assert forall x :: x in events + [e] <==> x in events || x == e;
  }

  /**
   * A page's records have pairwise distinct URLs, and a URL belongs to a
   * record exactly when some link of the page resolves to it.
   */
  lemma CollectUrls(links: seq<Link>)
    ensures DistinctUrls(Collect(links))
    ensures forall u :: u in UrlSet(Collect(links)) <==> u in Resolved(links)
    ensures |Collect(links)| <= |links|
  {
    CollectDistinct(links);
    CollectCovers(links);
  }

  lemma {:induction false} CollectDistinct(links: seq<Link>)
    ensures DistinctUrls(Collect(links))
    decreases |links|
  {
    if links != [] {
      var n := |links| - 1;
      var prev := Collect(links[..n]);
      CollectDistinct(links[..n]);
      var e := LinkEvent(links[n]);
      if e.url !in UrlSet(prev) {
        DistinctAppend(prev, e);
      }
    }
  }

  lemma {:induction false} CollectCovers(links: seq<Link>)
    ensures forall u :: u in UrlSet(Collect(links)) <==> u in Resolved(links)
    ensures |Collect(links)| <= |links|
    decreases |links|
  {
    if links != [] {
      var n := |links| - 1;
      var prev := Collect(links[..n]);
      CollectCovers(links[..n]);
      var link := links[n];
      var u := ResolveUrl(link.href);
      if u !in UrlSet(prev) {
        var e := LinkEvent(link);
        assert e.url == u;
        UrlSetAppend(prev, e);
      }
    }
  }

  lemma DistinctAppend(events: seq<Event>, e: Event)
    requires DistinctUrls(events) && e.url !in UrlSet(events)
    ensures DistinctUrls(events + [e])
  {
    UrlSetMembers(events);
    forall i | 0 <= i < |events|
      ensures events[i].url != e.url
    {
      assert events[i] in events;
    }
  }

  /** Record `k` of `out` is the record of the first link that resolves to its URL. */
  predicate FromFirstLink(links: seq<Link>, out: seq<Event>, k: int)
  {
    0 <= k < |out| && out[k].url in Resolved(links) &&
    out[k] == LinkEvent(links[FirstIndex(Resolved(links), out[k].url)])
  }

  /** Records `k` and `k'` of `out` come in the order of the first links with their URLs. */
  predicate FirstLinksOrdered(links: seq<Link>, out: seq<Event>, k: int, k': int)
  {
    0 <= k < k' < |out| && out[k].url in Resolved(links) && out[k'].url in Resolved(links) &&
    FirstIndex(Resolved(links), out[k].url) < FirstIndex(Resolved(links), out[k'].url)
  }

  lemma FirstIndexPrefix(s: seq<string>, n: nat, u: string)
    requires n <= |s| && u in s[..n]
    ensures FirstIndex(s, u) == FirstIndex(s[..n], u)
  {
    var a, b := FirstIndex(s, u), FirstIndex(s[..n], u);
    assert s[b] == u;
  }

  /** Each record of a page is the record of the first link with its URL. */
  lemma {:induction false} CollectOrigin(links: seq<Link>, k: nat)
    requires k < |Collect(links)|
    ensures FromFirstLink(links, Collect(links), k)
    decreases |links|
  {
    var n := |links| - 1;
    var prev := Collect(links[..n]);
    var rs := Resolved(links);
    assert rs[..n] == Resolved(links[..n]);
    var u := Collect(links)[k].url;
    if k < |prev| {
      CollectOrigin(links[..n], k);
      FirstIndexPrefix(rs, n, u);
      assert links[..n][FirstIndex(rs[..n], u)] == links[FirstIndex(rs, u)];
    } else {
      CollectCovers(links[..n]);
      assert u == rs[n];
      assert FirstIndex(rs, u) == n;
    }
  }

  /** The records of a page follow the order of the first links with their URLs. */
  lemma {:induction false} CollectOrder(links: seq<Link>, k: nat, k': nat)
    requires k < k' < |Collect(links)|
    ensures FirstLinksOrdered(links, Collect(links), k, k')
    decreases |links|
  {
    var n := |links| - 1;
    var prev := Collect(links[..n]);
    var out := Collect(links);
    var rs := Resolved(links);
    assert rs[..n] == Resolved(links[..n]);
    assert k < |prev| && out[k] == prev[k];
    var u, u' := out[k].url, out[k'].url;
    if k' < |prev| {
      assert out[k'] == prev[k'];
      CollectOrder(links[..n], k, k');
      FirstIndexPrefix(rs, n, u);
      FirstIndexPrefix(rs, n, u');
    } else {
      CollectOrigin(links[..n], k);
      FirstIndexPrefix(rs, n, u);
      CollectCovers(links[..n]);
      assert u' == rs[n] && u' !in rs[..n];
    }
  }

  /**
   * The records of a page are in first-occurrence order: each is the record
   * of the first link with its URL, and records appear in the order of
   * those first links.
   */
  lemma CollectFirstOccurrence(links: seq<Link>)
    ensures forall k :: 0 <= k < |Collect(links)| ==> FromFirstLink(links, Collect(links), k)
    ensures forall k, k' :: 0 <= k < k' < |Collect(links)| ==> FirstLinksOrdered(links, Collect(links), k, k')
  {
    forall k | 0 <= k < |Collect(links)|
      ensures FromFirstLink(links, Collect(links), k)
    {
      CollectOrigin(links, k);
    }
    forall k, k' | 0 <= k < k' < |Collect(links)|
      ensures FirstLinksOrdered(links, Collect(links), k, k')
    {
      CollectOrder(links, k, k');
    }
  }

  /** Every record has the record shape, and a due date yields an ISO date exactly when it was found. */
  lemma LinkEventWellFormed(link: Link)
    ensures WellFormed(LinkEvent(link))
    ensures LinkEvent(link).dateIso != "" <==> LinkEvent(link).dateRaw != ""
    ensures LinkEvent(link).url == ResolveUrl(link.href)
  {
    var raw := Kidate(link.hasParent, link.siblings);
    if raw != "" {
      KidateIsIsoDate(link.hasParent, link.siblings);
    }
  }

  lemma {:induction false} CollectWellFormed(links: seq<Link>)
    ensures forall e :: e in Collect(links) ==> WellFormed(e) && (e.dateIso != "" <==> e.dateRaw != "")
    decreases |links|
  {
    if links != [] {
      CollectWellFormed(links[..|links| - 1]);
      LinkEventWellFormed(links[|links| - 1]);
    }
  }

  /**
   * `parse_page` after the links have been selected: one record per
   * distinct resolved URL, in first-occurrence order.
   */
  method ParsePage(links: seq<Link>) returns (events: seq<Event>)
    ensures events == Collect(links)
  {
    events := [];
    var seen: set<string> := {};
    for i := 0 to |links|
      invariant events == Collect(links[..i])
      invariant seen == UrlSet(events)
    {
      var link := links[i];
      var url := ResolveUrl(link.href);
      assert links[..i + 1][..i] == links[..i];
      if url in seen {
        continue;
      }
      seen := seen + {url};
      var dateRaw := FindKidate(link.hasParent, link.siblings);
      UrlSetAppend(events, EventFor(link.title, url, dateRaw));
      events := events + [EventFor(link.title, url, dateRaw)];
    }
    assert links[..|links|] == links;
  }

  /** The records of `events` whose URL is not in `existing`, in order. */
  function NewEvents(existing: set<string>, events: seq<Event>): seq<Event>
  {
    if events == [] then []
    else (if events[0].url in existing then [] else [events[0]]) + NewEvents(existing, events[1..])
  }

  /** The new records are exactly the page's records whose URL is not in `existing`. */
  lemma {:induction false} NewEventsMembers(existing: set<string>, events: seq<Event>)
    ensures forall e :: e in NewEvents(existing, events) <==> e in events && e.url !in existing
    ensures |NewEvents(existing, events)| <= |events|
  {
    if events != [] {
      NewEventsMembers(existing, events[1..]);
      assert events == [events[0]] + events[1..];
    }
  }

  /**
   * `sub` is picked from `s` in order: its `k`-th element is the element of
   * `s` at `idx[k]`, and the positions `idx` strictly increase.
   */
  predicate OrderedPick(s: seq<Event>, idx: seq<int>, sub: seq<Event>)
  {
    |idx| == |sub| &&
    (forall k :: 0 <= k < |idx| ==> 0 <= idx[k] < |s| && sub[k] == s[idx[k]]) &&
    (forall k, k' :: 0 <= k < k' < |idx| ==> idx[k] < idx[k'])
  }

  /** Every position moved one place on. */
  function Shift(idx: seq<int>): (r: seq<int>)
    ensures |r| == |idx| && forall k :: 0 <= k < |idx| ==> r[k] == idx[k] + 1
  {
    seq(|idx|, k requires 0 <= k < |idx| => idx[k] + 1)
  }

  /** A pick from the tail of `s` is a pick from `s` at the shifted positions. */
  lemma PickShift(s: seq<Event>, idx: seq<int>, sub: seq<Event>)
    requires |s| > 0 && OrderedPick(s[1..], idx, sub)
    ensures OrderedPick(s, Shift(idx), sub)
  {
    forall k | 0 <= k < |idx|
      ensures sub[k] == s[Shift(idx)[k]]
    {
      assert sub[k] == s[1..][idx[k]];
    }
  }

  /** Picking the first element in front of a pick that avoids it. */
  lemma PickCons(s: seq<Event>, idx: seq<int>, sub: seq<Event>)
    requires |s| > 0 && OrderedPick(s, idx, sub) && forall k :: 0 <= k < |idx| ==> idx[k] > 0
    ensures OrderedPick(s, [0] + idx, [s[0]] + sub)
  {
  }

  /** Every position of `events` whose URL is not in `existing` is among `idx`. */
  predicate PicksAllNew(existing: set<string>, events: seq<Event>, idx: seq<int>)
  {
    forall i :: 0 <= i < |events| && events[i].url !in existing ==> i in idx
  }

  /** The positions picked from the tail, shifted, with the head in front when its URL is new. */
  lemma PicksAllNewStep(existing: set<string>, events: seq<Event>, idx: seq<int>)
    requires |events| > 0 && PicksAllNew(existing, events[1..], idx)
    ensures PicksAllNew(existing, events, if events[0].url in existing then Shift(idx) else [0] + Shift(idx))
  {
    var idx' := if events[0].url in existing then Shift(idx) else [0] + Shift(idx);
    forall i | 0 <= i < |events| && events[i].url !in existing
      ensures i in idx'
    {
      if i > 0 {
        assert events[1..][i - 1] == events[i];
        var k :| 0 <= k < |idx| && idx[k] == i - 1;
        assert idx'[|idx'| - |idx| + k] == i;
      }
    }
  }

  /**
   * The new records keep the page's order: they are picked from the page in
   * increasing position, and every position whose URL is new is picked.
   */
  lemma {:induction false} NewEventsInPageOrder(existing: set<string>, events: seq<Event>)
    ensures exists idx :: OrderedPick(events, idx, NewEvents(existing, events)) && PicksAllNew(existing, events, idx)
  {
    if events == [] {
      assert OrderedPick(events, [], []) && PicksAllNew(existing, events, []);
    } else {
      var rest := NewEvents(existing, events[1..]);
      NewEventsInPageOrder(existing, events[1..]);
      var idx :| OrderedPick(events[1..], idx, rest) && PicksAllNew(existing, events[1..], idx);
      PickShift(events, idx, rest);
      PicksAllNewStep(existing, events, idx);
      var out := NewEvents(existing, events);
      if events[0].url in existing {
        assert out == rest;
        assert OrderedPick(events, Shift(idx), out) && PicksAllNew(existing, events, Shift(idx));
      } else {
        assert out == [events[0]] + rest;
        PickCons(events, Shift(idx), rest);
        assert OrderedPick(events, [0] + Shift(idx), out) && PicksAllNew(existing, events, [0] + Shift(idx));
      }
    }
  }

  /** Filtering distinct records keeps them distinct and apart from the existing ones. */
  lemma {:induction false} NewEventsDistinct(existing: seq<Event>, events: seq<Event>)
    requires DistinctUrls(events)
    ensures DistinctUrls(NewEvents(UrlSet(existing), events))
    ensures DistinctUrls(existing) ==> DistinctUrls(existing + NewEvents(UrlSet(existing), events))
  {
    var added := NewEvents(UrlSet(existing), events);
    NewEventsMembers(UrlSet(existing), events);
    if events != [] {
      var rest := NewEvents(UrlSet(existing), events[1..]);
      NewEventsMembers(UrlSet(existing), events[1..]);
      NewEventsDistinct(existing, events[1..]);
      forall e | e in rest
        ensures e.url != events[0].url
      {
        var k :| 0 <= k < |events[1..]| && events[1..][k] == e;
        assert events[k + 1] == e;
      }
      forall i, j | 0 <= i < j < |added|
        ensures added[i].url != added[j].url
      {
        if events[0].url !in UrlSet(existing) && i == 0 {
          assert added[j] == rest[j - 1];
          assert added[j] in rest;
        }
      }
    }
    if DistinctUrls(existing) {
      UrlSetMembers(existing);
      var all := existing + added;
      forall i, j | 0 <= i < j < |all|
        ensures all[i].url != all[j].url
      {
        if i < |existing| <= j {
          assert all[j] in added;
          assert all[i].url in UrlSet(existing);
        }
      }
    }
  }

  /**
   * What `parse_page` yields for a requested page: its records, or `None`
   * when the request failed (the exception `scrape` catches on pages 2 to 10).
   */
  function PageRecords(response: PageFetch): Option<seq<Event>>
  {
    match response
    case FetchFailed => None
    case Fetched(links) => Some(Collect(links))
  }

  /** The records of every page, page number by page number. */
  function ParsedPages(fetch: nat -> PageFetch): nat -> Option<seq<Event>>
  {
    (p: nat) => PageRecords(fetch(p))
  }

  /**
   * One iteration of `scrape`'s page loop on a page's records: `None` when
   * the loop breaks (failure, an empty page, or nothing new), else the
   * extended list.
   */
  function Step(all: seq<Event>, records: Option<seq<Event>>): Option<seq<Event>>
  {
    match records
    case None => None
    case Some(events) =>
      if events == [] then None
      else
        var added := NewEvents(UrlSet(all), events);
        if added == [] then None else Some(all + added)
  }

  /**
   * A step leaves the earlier records in place, adds at least one, and
   * keeps URLs distinct when the page's own URLs are.
   */
  lemma StepExtends(all: seq<Event>, records: Option<seq<Event>>)
    requires Step(all, records).Some?
    ensures records.Some?
    ensures var next := Step(all, records).value;
      |next| > |all| && all <= next &&
      (DistinctUrls(all) && DistinctUrls(records.value) ==> DistinctUrls(next))
  {
    if DistinctUrls(records.value) {
      NewEventsDistinct(all, records.value);
    }
  }

  /** A step appends exactly the page's records whose URL is not yet present. */
  lemma StepAppendsNew(all: seq<Event>, events: seq<Event>)
    requires Step(all, Some(events)).Some?
    ensures var next := Step(all, Some(events)).value;
      all <= next &&
      (forall e :: e in next[|all|..] ==> e in events && e.url !in UrlSet(all)) &&
      (forall e :: e in events && e.url !in UrlSet(all) ==> e in next[|all|..])
    ensures var next := Step(all, Some(events)).value;
      exists idx :: OrderedPick(events, idx, next[|all|..]) && PicksAllNew(UrlSet(all), events, idx)
  {
    var next := Step(all, Some(events)).value;
    NewEventsMembers(UrlSet(all), events);
    NewEventsInPageOrder(UrlSet(all), events);
    assert next[|all|..] == NewEvents(UrlSet(all), events);
  }

  /**
   * `scrape`'s page loop from page `page` on, starting with the records
   * `all`. The loop only appends: the records it starts with stay a prefix.
   */
  function MergePages(pages: nat -> Option<seq<Event>>, page: nat, all: seq<Event>): (r: seq<Event>)
    ensures all <= r
    decreases LastPage + 1 - page
  {
    if page > LastPage then all
    else
      match Step(all, pages(page))
      case None => all
      case Some(next) =>
        StepKeepsPrefix(all, pages(page));
        PrefixTransitive(all, next, MergePages(pages, page + 1, next));
        MergePages(pages, page + 1, next)
  }

  /** `scrape`: page 1 outside the guarded loop, then pages 2 to 10. */
  function ScrapeSpec(fetch: nat -> PageFetch): ScrapeOutcome
  {
    match fetch(1)
    case FetchFailed => Raised
    case Fetched(links) => Completed(MergePages(ParsedPages(fetch), 2, Collect(links)))
  }

  /** Every page's records have pairwise distinct URLs. */
  ghost predicate PagesDistinct(pages: nat -> Option<seq<Event>>)
  {
    forall p: nat :: pages(p).Some? ==> DistinctUrls(pages(p).value)
  }

  /** One turn of the page loop: either it stops with `all`, or it goes on from the next page. */
  lemma MergePagesUnfold(pages: nat -> Option<seq<Event>>, page: nat, all: seq<Event>)
    ensures MergePages(pages, page, all) ==
      if page <= LastPage && Step(all, pages(page)).Some?
      then MergePages(pages, page + 1, Step(all, pages(page)).value)
      else all
  {
  }

  /** A step keeps the records it starts with as a prefix. */
  lemma StepKeepsPrefix(all: seq<Event>, records: Option<seq<Event>>)
    ensures Step(all, records).Some? ==> all <= Step(all, records).value
  {
  }

  /** A prefix of a prefix is a prefix. */
  lemma PrefixTransitive<T>(a: seq<T>, b: seq<T>, c: seq<T>)
    requires a <= b && b <= c
    ensures a <= c
  {
    assert c[..|a|] == b[..|a|];
  }

  /** The loop keeps URLs distinct when each page's are. */
  lemma {:induction false} MergePagesDistinct(pages: nat -> Option<seq<Event>>, page: nat, all: seq<Event>)
    requires DistinctUrls(all) && PagesDistinct(pages)
    ensures DistinctUrls(MergePages(pages, page, all))
    decreases LastPage + 1 - page
  {
    var records := pages(page);
    MergePagesUnfold(pages, page, all);
    if page <= LastPage && Step(all, records).Some? {
      var next := Step(all, records).value;
      assert DistinctUrls(records.value);
      StepExtends(all, records);
      MergePagesDistinct(pages, page + 1, next);
    }
  }

  /**
   * The page loop only appends: the records so far stay in place, and URLs
   * stay pairwise distinct when each page's are.
   */
  lemma MergePagesExtends(pages: nat -> Option<seq<Event>>, page: nat, all: seq<Event>)
    ensures all <= MergePages(pages, page, all)
    ensures DistinctUrls(all) && PagesDistinct(pages) ==> DistinctUrls(MergePages(pages, page, all))
  {
    if DistinctUrls(all) && PagesDistinct(pages) {
      MergePagesDistinct(pages, page, all);
    }
  }

  /**
   * The loop adds nothing exactly when it stops at its first page: that
   * page is past the last one, failed, was empty or brought nothing new.
   */
  lemma MergePagesStopsIff(pages: nat -> Option<seq<Event>>, page: nat, all: seq<Event>)
    ensures MergePages(pages, page, all) == all <==> page > LastPage || Step(all, pages(page)).None?
  {
    if page <= LastPage && Step(all, pages(page)).Some? {
      var next := Step(all, pages(page)).value;
      StepExtends(all, pages(page));
      MergePagesExtends(pages, page + 1, next);
    }
  }

  /** The page loop reads no page after `LastPage`. */
  lemma {:induction false} MergePagesWindow(f: nat -> Option<seq<Event>>, g: nat -> Option<seq<Event>>, page: nat, all: seq<Event>)
    requires forall p: nat :: page <= p <= LastPage ==> f(p) == g(p)
    ensures MergePages(f, page, all) == MergePages(g, page, all)
    decreases LastPage + 1 - page
  {
    if page <= LastPage {
      assert f(page) == g(page);
      if Step(all, f(page)).Some? {
        MergePagesWindow(f, g, page + 1, Step(all, f(page)).value);
      }
    }
  }

  /** `scrape` depends on pages 1 to 10 only. */
  lemma ScrapeReadsTenPages(f: nat -> PageFetch, g: nat -> PageFetch)
    requires forall p: nat :: 1 <= p <= LastPage ==> f(p) == g(p)
    ensures ScrapeSpec(f) == ScrapeSpec(g)
  {
    assert f(1) == g(1);
    if f(1).Fetched? {
      forall p: nat | 2 <= p <= LastPage
        ensures ParsedPages(f)(p) == ParsedPages(g)(p)
      {
        assert f(p) == g(p);
      }
      MergePagesWindow(ParsedPages(f), ParsedPages(g), 2, Collect(f(1).links));
    }
  }

  /** `parse_page` never yields two records with one URL. */
  lemma ParsedPagesDistinct(fetch: nat -> PageFetch)
    ensures PagesDistinct(ParsedPages(fetch))
  {
    forall p: nat | ParsedPages(fetch)(p).Some?
      ensures DistinctUrls(ParsedPages(fetch)(p).value)
    {
      assert ParsedPages(fetch)(p) == PageRecords(fetch(p));
      CollectUrls(fetch(p).links);
    }
  }

  /** `scrape`'s records have pairwise distinct URLs and begin with page 1's records. */
  lemma ScrapeDistinct(fetch: nat -> PageFetch)
    requires ScrapeSpec(fetch).Completed?
    ensures DistinctUrls(ScrapeSpec(fetch).events)
    ensures Collect(fetch(1).links) <= ScrapeSpec(fetch).events
  {
    CollectUrls(fetch(1).links);
    ParsedPagesDistinct(fetch);
    MergePagesExtends(ParsedPages(fetch), 2, Collect(fetch(1).links));
  }

  /**
   * The body of `scrape`'s page loop for one response: parse it, keep the
   * records with new URLs and append them, or report that the loop breaks.
   */
  method NextPage(all: seq<Event>, response: PageFetch) returns (next: Option<seq<Event>>)
    ensures next == Step(all, PageRecords(response))
  {
    if response.FetchFailed? {
      return None;
    }
    var events := ParsePage(response.links);
    if events == [] {
      return None;
    }
    var existing := UrlSet(all);
    var added := NewEvents(existing, events);
    if added == [] {
      return None;
    }
    return Some(all + added);
  }

  /**
   * `scrape`'s page loop over pages 2 to 10, starting from the records of
   * page 1: each page's new records are appended until a page fails, is
   * empty, or adds nothing.
   */
  method MergeLaterPages(fetch: nat -> PageFetch, first: seq<Event>) returns (all: seq<Event>)
    ensures all == MergePages(ParsedPages(fetch), 2, first)
  {
    ghost var pages := ParsedPages(fetch);
    all := first;
    var page := 2;
    while page <= LastPage
      invariant 2 <= page <= LastPage + 1
      invariant MergePages(pages, page, all) == MergePages(pages, 2, first)
    {
      var next := NextPage(all, fetch(page));
      assert pages(page) == PageRecords(fetch(page));
      if next.None? {
        break;
      }
      all := next.value;
      page := page + 1;
    }
  }

  /**
   * `scrape`: fetch and parse page 1 (a failure there propagates), then
   * pages 2 to 10, appending the new records of each and stopping at the
   * first page that fails, is empty, or adds nothing.
   */
  method Scrape(fetch: nat -> PageFetch) returns (outcome: ScrapeOutcome)
    ensures outcome == ScrapeSpec(fetch)
    ensures outcome.Completed? ==> DistinctUrls(outcome.events)
  {
    var first := fetch(1);
    if first.FetchFailed? {
      return Raised;
    }
    var events := ParsePage(first.links);
    var all := MergeLaterPages(fetch, events);
    outcome := Completed(all);
    ScrapeDistinct(fetch);
  }
}
