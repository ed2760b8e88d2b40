/** backend/app/tasks.py: the scan task re-matches its own keyword list
    against the stored, truncated content of the sample the crawler just
    stored, flags that sample and sends one more alert when anything
    matched, and swallows every exception; the scheduled job runs the task
    for each configured target in order. */
module Tasks {
  import opened Py
  import opened Text
  import opened Samples
  import opened Alerts
  import Crawler

  const Keywords: seq<string> := [
    "password", "credit card", "leak", "ssn", "credentials",
    "bank", "exploit", "ransomware", "private key", "data breach"
  ]

  /** A target dictionary: `'url'` and `'source'` may be missing. */
  datatype Target = Target(url: Option<string>, source: Option<string>)

  const ScheduledTargets: seq<Target> := [
    Target(Some("https://example.com"), Some("manual")),
    Target(Some("https://pastebin.com/raw/example"), Some("paste"))
  ]

  /** `target.get('source', 'unknown')`. */
  function SourceOf(t: Target): string {
    t.source.GetOr("unknown")
  }

  /** Lines 36-39: `[k for k in KEYWORDS if k in (content or "").lower()]`. */
  function Matched(content: string): (r: seq<string>)
    ensures forall k :: k in r <==> k in Keywords && Contains(Lower(content), k)
    ensures IsSubsequence(r, Keywords)
  {
    Select(Keywords, Lower(content))
  }

  /** The alert message of lines 49-54. */
  function TaskAlertMessage(matched: seq<string>, url: string, source: string): string {
    [Siren] + " <b>Alert:</b> Sensitive keywords found!\n"
    + "<b>Keywords:</b> " + Join(matched, ", ") + "\n"
    + "<b>URL:</b> " + url + "\n"
    + "<b>Source:</b> " + TitleCase(source)
  }

  /** What the task does once `parse_and_store` has returned or raised: an
      exception or a missing sample ends the task with the crawler's effects
      kept; otherwise the stored sample is flagged and one alert is sent iff
      its stored content matches a keyword. */
  function AfterCrawl(w: Crawler.World, source: string, crawled: Result<(Crawler.World, Option<Sample>)>): Crawler.World {
    match crawled
    case Raise(_) => w
    case Ok((w1, None)) => w1
    case Ok((w1, Some(obj))) =>
      var matched := Matched(obj.content);
      if matched == [] then w1
      else Crawler.World(Flagged(w1.store, obj.id, true),
                         w1.alerts + [TaskAlertMessage(matched, obj.url, source)])
  }

  /** `run_scan_task(target, db)` as a transition of the world. A missing
      `'url'` raises `KeyError` before anything happens, and is swallowed. */
  function Scan(w: Crawler.World, t: Target, f: Crawler.Fetch): Crawler.World {
    if t.url.None? then w
    else AfterCrawl(w, SourceOf(t), Crawler.Crawl(w, t.url.value, SourceOf(t), f))
  }

  /** `run_scan_task` with `parse_and_store` as written. */
  function ScanAsWritten(w: Crawler.World, t: Target, f: Crawler.Fetch): Crawler.World {
    if t.url.None? then w
    else AfterCrawl(w, SourceOf(t), Crawler.CrawlAsWritten(w, t.url.value, SourceOf(t), f))
  }

  /** As written, a scan task changes nothing at all: it stores no sample,
      flags nothing and sends no alert, whatever page is fetched. */
  lemma ScanAsWrittenChangesNothing(w: Crawler.World, t: Target, f: Crawler.Fetch)
    ensures ScanAsWritten(w, t, f) == w
  {
    if t.url.Some? {
      Crawler.CrawlAsWrittenNeverStores(w, t.url.value, SourceOf(t), f);
    }
  }

  /** The scheduled job: `run_scan_task` on each target in order, the i-th
      target crawled with the i-th fetch. */
  function ScanAll(w: Crawler.World, ts: seq<Target>, fs: seq<Crawler.Fetch>): Crawler.World
    requires |ts| == |fs|
  {
    if ts == [] then w
    else Scan(ScanAll(w, ts[..|ts| - 1], fs[..|fs| - 1]), ts[|ts| - 1], fs[|fs| - 1])
  }

  /** With no page (no `'url'`, a failed fetch, an empty body or a raised
      exception) the task neither stores, flags nor alerts. */
  lemma ScanWithoutPage(w: Crawler.World, t: Target, f: Crawler.Fetch)
    requires t.url.None?
          || !Crawler.ReadPage(t.url.value, Crawler.FetchUrl(f.response), f.parsed).Ok?
          || Crawler.ReadPage(t.url.value, Crawler.FetchUrl(f.response), f.parsed).value.None?
    ensures Scan(w, t, f) == w
  {
  }

  /** With a page, the task stores exactly one new sample, flagged iff the
      task's keywords occur in its stored (truncated) content; every earlier
      row is unchanged; the crawler's alert (if any) is followed by the
      task's own alert, sent iff the sample was flagged. */
  lemma ScanStoresAndFlags(w: Crawler.World, t: Target, f: Crawler.Fetch)
    requires ValidStore(w.store)
    requires t.url.Some?
    requires Crawler.ReadPage(t.url.value, Crawler.FetchUrl(f.response), f.parsed).Ok?
    requires Crawler.ReadPage(t.url.value, Crawler.FetchUrl(f.response), f.parsed).value.Some?
    ensures var p := Crawler.ReadPage(t.url.value, Crawler.FetchUrl(f.response), f.parsed).value.value;
      var stored := Take(p.text, Crawler.ContentLimit);
      var w' := Scan(w, t, f);
      var n := |w.store.rows|;
      && |w'.store.rows| == n + 1
      && w'.store.rows[..n] == w.store.rows
      && w'.store.rows[n].id == w.store.nextId
      && w'.store.rows[n].url == t.url.value
      && w'.store.rows[n].source == SourceOf(t)
      && w'.store.rows[n].content == stored
      && (w'.store.rows[n].flagged <==> Matched(stored) != [])
      && w'.alerts == w.alerts + Crawler.CrawlAlerts(t.url.value, p)
                      + (if Matched(stored) != [] then [TaskAlertMessage(Matched(stored), t.url.value, SourceOf(t))] else [])
      && ValidStore(w'.store)
  {
    var url, source := t.url.value, SourceOf(t);
    var p := Crawler.ReadPage(url, Crawler.FetchUrl(f.response), f.parsed).value.value;
    var c := Crawler.Record(url, source, p);
    var st1 := Inserted(w.store, c, f.now);
    assert ValidStore(st1);
    var obj := NewRow(w.store.nextId, c, f.now);
    if Matched(obj.content) != [] {
      FlagEffect(st1, obj.id, true);
      assert st1.rows[|w.store.rows|] == obj;
    }
  }

  /** A keyword whose every occurrence in the lower-cased page text ends
      past the 30000-character cut is never matched by the task, so it
      alone never flags the sample, however early the crawler saw it. */
  lemma TruncationHidesLateKeyword(text: string, k: string)
    requires forall i: nat :: OccursAt(Lower(text), k, i) ==> i + |k| > Crawler.ContentLimit
    ensures k !in Matched(Take(text, Crawler.ContentLimit))
  {
    LowerTake(text, Crawler.ContentLimit);
    NotContainedInTake(Lower(text), k, Crawler.ContentLimit);
  }

  /** Conversely, a task keyword occurring in the lower-cased text and
      ending within the first 30000 characters is matched by the task. */
  lemma EarlyKeywordMatched(text: string, k: string, i: nat)
    requires k in Keywords
    requires OccursAt(Lower(text), k, i) && i + |k| <= Crawler.ContentLimit
    ensures k in Matched(Take(text, Crawler.ContentLimit))
  {
    LowerTake(text, Crawler.ContentLimit);
    ContainsInTake(Lower(text), k, Crawler.ContentLimit, i);
  }

  /** A keyword of both lists that the task matches in the stored content
      was also matched by the crawler in the full text, so the crawler
      alerted for the same page, whatever its url and title. */
  lemma SharedKeywordAlsoAlertsCrawler(text: string, k: string)
    requires k in Crawler.Keywords
    requires k in Matched(Take(text, Crawler.ContentLimit))
    ensures k in Crawler.Matched(text)
    ensures forall url, title :: Crawler.CrawlAlerts(url, Crawler.Page(title, text)) != []
  {
    LowerTake(text, Crawler.ContentLimit);
    ContainsFromTake(Lower(text), k, Crawler.ContentLimit);
    Crawler.KeywordsAreLowerCase();
  }

  /** No crawler keyword occurs in "data breach". */
  lemma NoCrawlerKeywordInDataBreach()
    ensures forall i :: 0 <= i < |Crawler.Keywords| ==> !Contains("data breach", Crawler.Keywords[i])
  {
    var h, ks := "data breach", Crawler.Keywords;
    MissingCharNotContained(h, ks[0], 0);   // 'p'
    MissingCharNotContained(h, ks[1], 0);   // 'l'
    MissingCharNotContained(h, ks[2], 0);   // 's'
    MissingCharNotContained(h, ks[3], 4);   // 'i'
    MissingCharNotContained(h, ks[4], 1);   // 'v'
    MissingCharNotContained(h, ks[5], 7);   // 'i'
    MissingCharNotContained(h, ks[6], 3);   // 'o'
    MissingCharNotContained(h, ks[7], 2);   // 'n'
    MissingCharNotContained(h, ks[8], 1);   // 'x'
    MissingCharNotContained(h, ks[9], 2);   // 'n'
    MissingCharNotContained(h, ks[10], 6);  // 's'
  }

  /** A page whose text is "data breach": the task flags it although the
      crawler sends no alert, because "data breach" is a task keyword only. */
  lemma DataBreachFlagsWithoutCrawlerAlert()
    ensures Matched("data breach") != []
    ensures Crawler.Matched("data breach") == []
  {
    var h := "data breach";
    assert Lower(h) == h;
    assert OccursAt(Lower(h), "data breach", 0);
    assert "data breach" in Matched(h);
    NoCrawlerKeywordInDataBreach();
    SelectNone(Crawler.Keywords, Lower(h));
  }

  /** A page of 30000 spaces followed by "password": the crawler alerts on
      the full text, but the stored content is the spaces only, so the task
      does not flag the sample. */
  lemma LatePasswordAlertsWithoutFlag()
    ensures var text := seq(Crawler.ContentLimit, _ => ' ') + "password";
      && Crawler.Matched(text) != []
      && Matched(Take(text, Crawler.ContentLimit)) == []
  {
    var spaces := seq(Crawler.ContentLimit, _ => ' ');
    var text := spaces + "password";
    assert Take(text, Crawler.ContentLimit) == spaces;
    assert Lower(spaces) == spaces;
    assert Lower(text)[Crawler.ContentLimit..] == "password";
    assert OccursAt(Lower(text), "password", Crawler.ContentLimit);
    Crawler.KeywordsAreLowerCase();
    assert "password" in Crawler.Matched(text);
    forall i | 0 <= i < |Keywords| ensures !Contains(spaces, Keywords[i]) {
      assert Keywords[i][0] != ' ';
      MissingCharNotContained(spaces, Keywords[i], 0);
    }
    SelectNone(Keywords, spaces);
  }

  /** `run_scan_task(target, db)`: never raises. */
  method RunScanTask(t: Target, f: Crawler.Fetch, db: SampleTable, log: AlertLog)
    requires db.Valid()
    modifies db, log
    ensures db.Valid()
    ensures Crawler.World(db.State(), log.sent) == Scan(old(Crawler.World(db.State(), log.sent)), t, f)
  {
    if t.url.None? {
      return;
    }
    var source := SourceOf(t);
    var obj := Crawler.ParseAndStore(t.url.value, source, f, db, log);
    if obj.Raise? || obj.value.None? {
      return;
    }
    var sample := obj.value.value;
    var matched := Matched(sample.content);
    if matched != [] {
      var _ := db.FlagSample(sample.id, true);
      log.Send(TaskAlertMessage(matched, sample.url, source));
    }
  }

  /** `scheduled_job()`: runs the task for every scheduled target, in list
      order, against one table. */
  method ScheduledJob(fs: seq<Crawler.Fetch>, db: SampleTable, log: AlertLog)
    requires |fs| == |ScheduledTargets|
    requires db.Valid()
    modifies db, log
    ensures db.Valid()
    ensures Crawler.World(db.State(), log.sent)
            == ScanAll(old(Crawler.World(db.State(), log.sent)), ScheduledTargets, fs)
  {
    ghost var w0 := Crawler.World(db.State(), log.sent);
    var i := 0;
    while i < |ScheduledTargets|
      invariant 0 <= i <= |ScheduledTargets|
      invariant db.Valid()
      invariant Crawler.World(db.State(), log.sent) == ScanAll(w0, ScheduledTargets[..i], fs[..i])
    {
      RunScanTask(ScheduledTargets[i], fs[i], db, log);
      assert ScheduledTargets[..i + 1][..i] == ScheduledTargets[..i];
      assert fs[..i + 1][..i] == fs[..i];
      i := i + 1;
    }
    assert ScheduledTargets[..i] == ScheduledTargets;
    assert fs[..i] == fs;
  }

  /** The scheduled job scans https://example.com first and then the paste
      target, each exactly once. */
  lemma ScheduledJobOrder(w: Crawler.World, fs: seq<Crawler.Fetch>)
    requires |fs| == 2
    ensures ScanAll(w, ScheduledTargets, fs)
            == Scan(Scan(w, ScheduledTargets[0], fs[0]), ScheduledTargets[1], fs[1])
  {
    var ts := ScheduledTargets;
    assert ts[..1][..0] == [] && fs[..1][..0] == [];
    assert ScanAll(w, ts[..1], fs[..1]) == Scan(w, ts[0], fs[0]);
  }
}
