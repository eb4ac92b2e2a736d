# Kumamoto child-raising events scraper: a verified model

`scraper.py` collects child-raising events and courses from the Kumamoto
marriage and child-raising portal. It works in three stages:

- It reads up to ten pages of the event listing.
- It turns every event link on a page into a record. A record holds the title,
  the absolute URL and the due date (期日) found next to the link. It also holds
  that date as `YYYY-MM-DD`, plus a category tag and a target-age tag guessed
  from keywords in the title.
- It merges the pages into one list with no repeated URL.

This project models that logic in Dafny and proves what it promises.

| file | module | models |
|---|---|---|
| `strings.dfy` | `Strings` | Python's `k in t` (`Contains`), `str.startswith` (`StartsWith`), and ASCII decimal digits |
| `classify.dfy` | `Classify` | `CATEGORY_MAP` and `AGE_MAP` as ordered (keyword, tag) sequences in written order; `guess_category` and `guess_age` |
| `iso_date.dfy` | `IsoDate` | the date pattern `\d{4}年\d{1,2}月\d{1,2}日` anchored at the start (`re.match`, `MatchDate`) and leftmost anywhere (`re.findall(...)[0]`, `SearchDate`); `to_iso` with `zfill(2)` |
| `due_date.dfy` | `DueDate` | `find_kidate` as a specification function (`Kidate`) and as the cursor loop of the source (`FindKidate`) |
| `listing.dfy` | `Listing` | event links and records; URL resolution; the record-building and de-duplication loop of `parse_page` (`ParsePage`); the page-merge loop of `scrape` (`MergeLaterPages`, `Scrape`) |

The HTML layer is given as data. A page is the sequence of its event links.
Each link carries four things:

- its text;
- its `href`;
- whether it has a parent element;
- the texts of the parent's following sibling elements, in document order.

A page request is a function `fetch` from page numbers to either such a page
(`Fetched`) or a failure (`FetchFailed`). A failure on page 1 is not caught by
`scrape`, so the model reports it as `Raised`. A failure on pages 2 to 10 ends
the loop, just like the caught exception does.

The loops are proved against specification functions:

- `FindKidate` is proved against `Kidate`.
- `ParsePage` is proved against `Collect`.
- `MergeLaterPages` and `Scrape` are proved against `MergePages` and `ScrapeSpec`.

The lemmas then state what those functions guarantee.

## Model

| member | source | states |
|---|---|---|
| `Classify.Lookup` | scraper.py:43-51 | the result is the fallback or the tag of some table entry |
| `Classify.LookupFirstMatch` | scraper.py:43-51 | with no keyword in the text the result is the fallback; otherwise some entry is the first (in table order) whose keyword occurs, and the result is that entry's tag |
| `Classify.GuessCategory` | scraper.py:23-46 | the category is one of the eight tags of `CATEGORY_MAP` or `"その他"` |
| `Classify.GuessAge` | scraper.py:35-51 | the age tag is one of the six tags of `AGE_MAP` or `"指定なし"` |
| `Classify.LookupMissesAbsent` | scraper.py:48-51 | a tag that only one entry holds is not returned when that entry's keyword does not occur in the text |
| `Classify.LookupShadowed` | scraper.py:43-51 | an entry whose keyword contains an earlier entry's keyword never decides the result, so a tag only it holds is never returned |
| `Classify.GuessAgeNeverInfantPreschool` | scraper.py:35-51 | `guess_age` never returns `"0歳〜未就学"`, because `"幼児"` precedes `"乳幼児"` and occurs inside it |
| `Classify.GuessCategoryPrefersEarlierKeyword` | scraper.py:23-46 | table order decides between two matching keywords: `"離乳食の相談会"` is `"食育・栄養"`, not `"発達・育児相談"` |
| `IsoDate.MatchDate` | scraper.py:54 | a match covers 9 to 11 characters of the text |
| `IsoDate.MatchDateSound` | scraper.py:53-55 | there is a match exactly when the text starts with four digits, `年`, one or two digits, `月`, one or two digits, `日`; the groups are exactly those digit runs |
| `IsoDate.ToIsoNonEmptyIff` | scraper.py:53-55 | `to_iso` is non-empty exactly when the text starts with a date |
| `IsoDate.ZeroFill2Value` | scraper.py:55 | `zfill(2)` of one or two digits gives two digits with the same value |
| `IsoDate.ToIsoShape` | scraper.py:53-55 | a non-empty result has length 10, the year copied, `-` at positions 4 and 7, and month and day as two digits with the values written in the text |
| `IsoDate.ToIsoNoCalendarCheck` | scraper.py:53-55 | `2024年2月30日` becomes `2024-02-30`: no calendar check |
| `IsoDate.MatchDateIgnoresRest` | scraper.py:54 | the match depends only on the matched prefix |
| `IsoDate.ToIsoIgnoresTrailingText` | scraper.py:53-55 | text after a date does not change `to_iso` |
| `IsoDate.SearchDateNone` | scraper.py:65 | `findall` finds nothing exactly when the pattern matches at no position |
| `IsoDate.SearchDateLeftmost` | scraper.py:65-66 | `findall(...)[0]` is the text of the match at the leftmost matching position |
| `IsoDate.SearchDateIsDate` | scraper.py:65-66 | the text found is itself a date: `to_iso` accepts it and it is 9 to 11 characters long |
| `DueDate.ScanSiblingsFirst` | scraper.py:60-68 | the scan returns the first date of the first text (within the budget) that contains `期日` and a date, and `""` exactly when no such text is within the budget |
| `DueDate.ScanSiblingsPrefix` | scraper.py:61-67 | the scan reads only the first `budget` texts |
| `DueDate.KidateLooksAtThree` | scraper.py:57-68 | two links whose first three following siblings agree get the same due date |
| `DueDate.KidateIsIsoDate` | scraper.py:65-66 | a non-empty due date starts with a date and `to_iso` of it is non-empty |
| `DueDate.FindKidate` | scraper.py:57-68 | the cursor loop returns exactly `Kidate`, and a non-empty result is accepted by `to_iso` |
| `Listing.ResolveUrlSound` | scraper.py:98 | a URL is the `href` unchanged exactly when the `href` starts with `"http"`, otherwise `BASE_URL + href`; it always starts with `"http"` and resolving twice changes nothing |
| `Listing.UrlSetMembers` | scraper.py:131 | a URL is in the set of present URLs exactly when some record carries it |
| `Listing.UrlSetAppend` | scraper.py:100 | adding a record adds exactly its URL to the seen set |
| `Listing.CollectDistinct` | scraper.py:95-100 | a page's records have pairwise distinct URLs |
| `Listing.CollectCovers` | scraper.py:95-100 | a URL belongs to a record exactly when some link resolves to it; there are no more records than links |
| `Listing.CollectUrls` | scraper.py:93-114 | distinct URLs, and every link's URL appears in the output |
| `Listing.DistinctAppend` | scraper.py:99-102 | appending a record whose URL is new keeps URLs distinct |
| `Listing.CollectOrigin` | scraper.py:95-113 | each record is the record built from the first link that resolves to its URL |
| `Listing.CollectOrder` | scraper.py:95-113 | records appear in the order of the first links with their URLs |
| `Listing.CollectFirstOccurrence` | scraper.py:93-114 | the output is in first-occurrence order and each record comes from the first link with its URL |
| `Listing.LinkEventWellFormed` | scraper.py:101-113 | a record's `category`, `target_age` and `date_iso` are `guess_category(title)`, `guess_age(title)` and `to_iso(date_raw)`; `time_raw`, `location`, `apply_info` and `body_preview` are `""`; `date_iso` is non-empty exactly when a due date was found |
| `Listing.CollectWellFormed` | scraper.py:93-114 | every record of a page has that shape |
| `Listing.ParsePage` | scraper.py:93-114 | the loop with its seen set and `continue` builds exactly `Collect(links)` |
| `Listing.NewEventsMembers` | scraper.py:132 | the new records are exactly the page's records whose URL is not already present |
| `Listing.NewEventsInPageOrder` | scraper.py:131-134 | the new records are picked from the page in increasing position, so they keep the page's order, and every record whose URL is not yet present is picked |
| `Listing.NewEventsDistinct` | scraper.py:131-134 | the new records keep URLs distinct, and so does the extended list |
| `Listing.StepExtends` | scraper.py:127-134 | a page that does not stop the loop adds at least one record, keeps the earlier records in place, and keeps URLs distinct |
| `Listing.StepAppendsNew` | scraper.py:131-134 | a page appends exactly its records whose URL is not yet present, in page order: the appended part is picked from the page in increasing position and includes every record with a new URL |
| `Listing.MergePages` | scraper.py:125-138 | the page loop only appends: the records it starts with stay a prefix of its result |
| `Listing.MergePagesExtends` | scraper.py:125-138 | the loop only appends: earlier records are never changed or reordered, and URLs stay distinct |
| `Listing.MergePagesStopsIff` | scraper.py:125-138 | the loop adds nothing exactly when its first page is past page 10, fails, is empty or brings nothing new |
| `Listing.MergePagesWindow` | scraper.py:125 | the loop reads no page after page 10 |
| `Listing.ScrapeReadsTenPages` | scraper.py:116-138 | `scrape` depends on pages 1 to 10 only |
| `Listing.ParsedPagesDistinct` | scraper.py:93-114 | every parsed page has distinct URLs |
| `Listing.ScrapeDistinct` | scraper.py:116-146 | `scrape`'s records have pairwise distinct URLs and begin with page 1's records |
| `Listing.NextPage` | scraper.py:127-138 | one turn of the page loop yields exactly `Step` on that page's parsed records |
| `Listing.MergeLaterPages` | scraper.py:125-138 | the loop over pages 2 to 10 yields exactly `MergePages` from page 2 |
| `Listing.Scrape` | scraper.py:116-146 | `scrape` yields exactly `ScrapeSpec`, and its records have distinct URLs |

## Left out

- `fetch_html` (scraper.py:70-77) is not modelled because it is network I/O: the request, the headers, the timeout, encoding detection and the status check. Its result is the `fetch` parameter. A failed request, a raised status or a parse that raises are all one `FetchFailed`.
- `save` and the `__main__` block (scraper.py:148-162) are not modelled because they write a file, read the clock and serialise JSON.
- `time.sleep` and every `print` are not modelled because they are side effects with no effect on the result. This includes the total-count regex `全(\d+)件` and the anchor counts, which only feed debug output.
- BeautifulSoup is not modelled because it is a foreign library. The calls left out are `select_one("#maincont")`, `find_all("a", href=re.compile(r"/page\d+\.html"))`, `a.get_text(strip=True)`, `a.get("href", "")`, `find_next_sibling` and `get_text(" ", strip=True)`. Links arrive already selected, with their text, href, parent flag and following-sibling texts.
- `Strings.IsDigit`: `\d` accepts ASCII digits only. Python's `\d` also matches other Unicode decimal digits, such as full-width `２０２４`, and `zfill` would keep them. Text written with such digits has no date in this model.
- Exceptions are not modelled as control flow. On pages 2 to 10 a failure ends the loop (`Step` returns `None`). On page 1 it ends `scrape` (`Raised`).
- The loop body of `scrape` (scraper.py:127-136) is written as its own method, `NextPage`. The loop over pages 2 to 10 is written as `MergeLaterPages`, which `Scrape` calls after page 1.
