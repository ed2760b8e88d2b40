/** backend/app/crawler.py: fetch a page, store one sample for it, and send
    one alert when any of the crawler's keywords occurs in its text. The
    network response and what BeautifulSoup extracts from the HTML are
    inputs (`Fetch`); the clock reading that becomes `created_at` too. */
module Crawler {
  import opened Py
  import opened Text
  import opened Samples
  import opened Alerts

  const Keywords: seq<string> := [
    "password", "leak", "ssn", "credit card", "cvv", "credentials",
    "account", "bank", "exploit", "ransomware", "database dump"
  ]

  const TitleLimit: nat := 250
  const ContentLimit: nat := 30000

  /** What `session.get(url)` produced: an exception of the transport, or a
      response with its status code and decoded body. */
  datatype Response = TransportError | HttpResponse(status: int, text: string)

  /** `soup.title`: absent, or present with its `.string` (None when the tag
      does not hold exactly one string, for instance when it is empty). */
  datatype TitleTag = NoTitleTag | TitleTag(str: Option<string>)

  /** What BeautifulSoup extracts from the fetched HTML: the title tag and
      `soup.get_text(separator=" ", strip=True)`. */
  datatype Parsed = Parsed(title: TitleTag, text: string)

  /** Everything the outside world supplies for one crawl. */
  datatype Fetch = Fetch(response: Response, parsed: Parsed, now: nat)

  /** The page as the crawler uses it: the chosen title and the full text. */
  datatype Page = Page(title: string, text: string)

  /** The persistent state the crawl touches: the samples table and the
      alerts sent so far. */
  datatype World = World(store: Store, alerts: seq<string>)

  /** `fetch_url`: every failure, including `raise_for_status()` on a 4xx or
      5xx status, is turned into None; nothing is raised to the caller. */
  function FetchUrl(resp: Response): (r: Option<string>)
    ensures r.None? <==> resp.TransportError? || 400 <= resp.status < 600
    ensures r.Some? ==> r.value == resp.text
  {
    match resp
    case TransportError => None
    case HttpResponse(status, text) => if 400 <= status < 600 then None else Some(text)
  }

  /** Lines 38-44: no page for a missing or empty body; the title is the
      page title or, without a title tag, the url; a title tag without a
      string makes the later `title[:250]` raise `TypeError`. */
  function ReadPage(url: string, html: Option<string>, parsed: Parsed): (r: Result<Option<Page>>)
    ensures r == Ok(None) <==> html.None? || html.value == ""
    ensures r.Raise? <==> html.Some? && html.value != "" && parsed.title == TitleTag(None)
    ensures r.Raise? ==> r.error == TypeError
    ensures r.Ok? && r.value.Some? ==>
      && r.value.value.text == parsed.text
      && r.value.value.title == (if parsed.title.NoTitleTag? then url else parsed.title.str.value)
  {
    if html.None? || html.value == "" then Ok(None)
    else match parsed.title
      case NoTitleTag => Ok(Some(Page(url, parsed.text)))
      case TitleTag(None) => Raise(TypeError)
      case TitleTag(Some(t)) => Ok(Some(Page(t, parsed.text)))
  }

  /** The `SampleCreate` built at lines 47-53. */
  function Record(url: string, source: string, p: Page): (c: SampleCreate)
    ensures c.url == url && c.source == source
    ensures c.title.Some? && |c.title.value| == Min(TitleLimit, |p.title|)
    ensures c.title.value == p.title[..|c.title.value|]
    ensures |c.content| == Min(ContentLimit, |p.text|) && c.content == p.text[..|c.content|]
    ensures c.extraMetadata == Some(Metadata(|p.text|))
  {
    SampleCreate(source, url, Some(Take(p.title, TitleLimit)), Take(p.text, ContentLimit),
                 Some(Metadata(|p.text|)))
  }

  /** Every crawler keyword is already lower case, so `k.lower()` is `k`. */
  lemma KeywordsAreLowerCase()
    ensures forall k :: k in Keywords ==> Lower(k) == k
  {
    forall k | k in Keywords ensures Lower(k) == k {
      assert IsLowerCase(k);
      LowerOfLowerCase(k);
    }
  }

  /** Line 57: `[k for k in KEYWORDS if k.lower() in text.lower()]`. */
  function Matched(text: string): (r: seq<string>)
    ensures forall k :: k in r <==> k in Keywords && Contains(Lower(text), Lower(k))
    ensures IsSubsequence(r, Keywords)
  {
    KeywordsAreLowerCase();
    Select(Keywords, Lower(text))
  }

  /** The alert message of lines 59-63; it names the full, untruncated
      title. */
  function CrawlAlertMessage(matched: seq<string>, url: string, title: string): string {
    [Siren] + " <b>Keyword(s) found:</b> " + Join(matched, ", ") + "\n"
    + "<b>URL:</b> " + url + "\n"
    + "<b>Title:</b> " + title
  }

  /** The alerts lines 58-64 send: exactly one when some keyword occurs in
      the full text, case-insensitively, and none otherwise. */
  function CrawlAlerts(url: string, p: Page): (r: seq<string>)
    ensures |r| <= 1
    ensures r != [] <==> exists k :: k in Keywords && Contains(Lower(p.text), Lower(k))
    ensures r != [] ==> r[0] == CrawlAlertMessage(Matched(p.text), url, p.title)
  {
    var matched := Matched(p.text);
    if matched != [] then
      assert matched[0] in matched;
      [CrawlAlertMessage(matched, url, p.title)]
    else
      assert forall k :: k in Keywords ==> !Contains(Lower(p.text), Lower(k));
      []
  }

  /** `parse_and_store(url, source, db)` as a transition of the world: the
      result is the stored sample, or None when there is no page, or the
      exception raised. */
  function Crawl(w: World, url: string, source: string, f: Fetch): (r: Result<(World, Option<Sample>)>)
    ensures r.Raise? ==> r.error == TypeError
    ensures r.Raise? <==> FetchUrl(f.response).Some? && FetchUrl(f.response).value != ""
                          && f.parsed.title == TitleTag(None)
    ensures r.Ok? && r.value.1.None? ==> r.value.0 == w
    ensures r.Ok? && r.value.1.None? <==> FetchUrl(f.response).None? || FetchUrl(f.response) == Some("")
    ensures r.Ok? && r.value.1.Some? ==>
      var obj := r.value.1.value;
      && r.value.0.store.rows == w.store.rows + [obj]
      && r.value.0.store.nextId == w.store.nextId + 1
      && obj.id == w.store.nextId && obj.url == url && obj.source == source && !obj.flagged
      && |w.alerts| <= |r.value.0.alerts| <= |w.alerts| + 1
      && r.value.0.alerts[..|w.alerts|] == w.alerts
    ensures var page := ReadPage(url, FetchUrl(f.response), f.parsed);
      page.Ok? && page.value.Some? ==>
        var p := page.value.value;
        && r.Ok? && r.value.1.Some?
        && r.value.0.alerts == w.alerts + CrawlAlerts(url, p)
        && var obj := r.value.1.value;
           && obj.title.Some? && |obj.title.value| == Min(TitleLimit, |p.title|)
           && obj.title.value == p.title[..|obj.title.value|]
           && |obj.content| == Min(ContentLimit, |p.text|) && obj.content == p.text[..|obj.content|]
           && obj.createdAt == f.now
  {
    var page :- ReadPage(url, FetchUrl(f.response), f.parsed);
    if page.None? then Ok((w, None))
    else
      var c := Record(url, source, page.value);
      Ok((World(Inserted(w.store, c, f.now), w.alerts + CrawlAlerts(url, page.value)),
          Some(NewRow(w.store.nextId, c, f.now))))
  }

  /** `parse_and_store` as written, with `create_sample` reading the
      missing `flagged` attribute. */
  function CrawlAsWritten(w: World, url: string, source: string, f: Fetch): Result<(World, Option<Sample>)> {
    var page :- ReadPage(url, FetchUrl(f.response), f.parsed);
    if page.None? then Ok((w, None))
    else
      var created :- CreateSampleAsWritten(w.store, Record(url, source, page.value), f.now);
      Ok((World(created.0, w.alerts + CrawlAlerts(url, page.value)), Some(created.1)))
  }

  /** As written, a crawl never stores a sample and never alerts: a fetched
      page always ends in an exception. */
  lemma CrawlAsWrittenNeverStores(w: World, url: string, source: string, f: Fetch)
    ensures var r := CrawlAsWritten(w, url, source, f);
      r.Raise? || r == Ok((w, None))
    ensures FetchUrl(f.response).Some? && FetchUrl(f.response).value != "" ==>
      CrawlAsWritten(w, url, source, f).Raise?
  {
    var page := ReadPage(url, FetchUrl(f.response), f.parsed);
    if page.Ok? && page.value.Some? {
      CreateSampleAsWrittenRaises(w.store, Record(url, source, page.value.value), f.now);
    }
  }

  /** `parse_and_store(url, source, db)` on the table object and the alert
      channel. */
  method ParseAndStore(url: string, source: string, f: Fetch, db: SampleTable, log: AlertLog)
    returns (r: Result<Option<Sample>>)
    requires db.Valid()
    modifies db, log
    ensures db.Valid()
    ensures match Crawl(old(World(db.State(), log.sent)), url, source, f)
      case Raise(e) => r == Raise(e) && db.State() == old(db.State()) && log.sent == old(log.sent)
      case Ok(res) => r == Ok(res.1) && World(db.State(), log.sent) == res.0
  {
    var html := FetchUrl(f.response);
    var page := ReadPage(url, html, f.parsed);
    if page.Raise? {
      return Raise(page.error);
    }
    if page.value.None? {
      return Ok(None);
    }
    var p := page.value.value;
    var obj := db.CreateSample(Record(url, source, p), f.now);
    var matched := Matched(p.text);
    if matched != [] {
      log.Send(CrawlAlertMessage(matched, url, p.title));
    }
    r := Ok(Some(obj));
  }
}
