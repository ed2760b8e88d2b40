/** backend/app/main.py: the keyword-search and scan-start routes and the
    WebSocket connection manager. The clock readings formatted into the
    alert messages are inputs. */
module Api {
  import opened Py
  import opened Text
  import opened Json
  import opened Alerts

  /** A request body: FastAPI's `payload: dict`. */
  type Payload = map<string, Json>

  // ---------------------------------------------------------------------
  // POST /api/search

  datatype Site = Site(url: string, content: string)

  /** The fixed dataset of lines 67-71. */
  const Websites: seq<Site> := [
    Site("https://example.com", "This is a demo site"),
    Site("https://leaktest.com", "User password leaked database"),
    Site("https://securebank.com", "Welcome to Secure Bank")
  ]

  const ManualSource := "manual"
  const NoKeywordError := "No keyword provided"
  /** U+2705, the mark of a site without an alert. */
  const CheckMark: char := '\U{2705}'
  const AlertSentStatus: string := [Siren] + " Alert sent"
  const NoAlertStatus: string := [CheckMark] + " No alert"

  datatype SearchEntry = SearchEntry(url: string, source: string, found: bool, telegramStatus: string)

  datatype SearchResponse =
    | SearchError(error: string)
    | SearchResults(keyword: string, results: seq<SearchEntry>, alertedSites: seq<string>)

  /** Line 60: `payload.get("keyword", "").lower().strip()`; a keyword that
      is not a string has no `.lower()` and raises `AttributeError`. */
  function NormalizedKeyword(payload: Payload): Result<string> {
    if "keyword" !in payload then Ok("")
    else match payload["keyword"]
      case JString(s) => Ok(Strip(Lower(s)))
      case _ => Raise(AttributeError)
  }

  /** Lower-casing neither creates nor removes whitespace. */
  lemma LowerKeepsSpace(s: string)
    ensures forall i :: 0 <= i < |s| ==> (IsSpace(Lower(s)[i]) <==> IsSpace(s[i]))
  {
  }

  /** The normalised keyword is empty exactly when the field is missing or
      holds only whitespace. */
  lemma NormalizedKeywordEmptyIff(payload: Payload)
    requires NormalizedKeyword(payload).Ok?
    ensures NormalizedKeyword(payload).value == "" <==>
      "keyword" !in payload || forall i :: 0 <= i < |payload["keyword"].s| ==> IsSpace(payload["keyword"].s[i])
  {
    if "keyword" in payload {
      var s := payload["keyword"].s;
      StripEmptyIff(Lower(s));
      LowerKeepsSpace(s);
    }
  }

  /** One result entry (lines 77-99): `found` is substring membership in
      the lower-cased content. */
  function Entry(site: Site, kw: string): SearchEntry {
    var found := Contains(Lower(site.content), kw);
    SearchEntry(site.url, ManualSource, found, if found then AlertSentStatus else NoAlertStatus)
  }

  /** The status carries the alert marker exactly when the keyword was found,
      which is what the dashboard tests with `includes("🚨")`. */
  lemma StatusMarksFound(site: Site, kw: string)
    ensures Siren in Entry(site, kw).telegramStatus <==> Entry(site, kw).found
  {
    assert AlertSentStatus[0] == Siren;
    assert forall i :: 0 <= i < |NoAlertStatus| ==> NoAlertStatus[i] != Siren;
  }

  /** The alert message of lines 88-93. */
  function KeywordAlertMessage(kw: string, url: string, stamp: string): string {
    [Siren] + " <b>Keyword Detected!</b>\n"
    + "<b>Keyword:</b> <code>" + kw + "</code>\n"
    + "<b>URL:</b> <a href='" + url + "'>" + url + "</a>\n"
    + "<b>Detected at:</b> " + stamp
  }

  /** The result entries for `sites`, in dataset order. */
  function Entries(sites: seq<Site>, kw: string): (r: seq<SearchEntry>)
    ensures |r| == |sites|
  {
    if sites == [] then []
    else Entries(sites[..|sites| - 1], kw) + [Entry(sites[|sites| - 1], kw)]
  }

  /** One entry per site, the i-th for the i-th site. */
  lemma {:induction false} EntriesAt(sites: seq<Site>, kw: string)
    ensures forall i :: 0 <= i < |sites| ==> Entries(sites, kw)[i] == Entry(sites[i], kw)
  {
    if sites != [] {
      var n := |sites| - 1;
      var init := sites[..n];
      EntriesAt(init, kw);
      forall i | 0 <= i < |sites|
        ensures Entries(sites, kw)[i] == Entry(sites[i], kw)
      {
        if i < n {
          assert Entries(sites, kw)[i] == Entries(init, kw)[i];
          assert init[i] == sites[i];
        }
      }
    }
  }

  /** `found_alerts`: the urls of the entries marked found, in order. */
  function FoundUrls(entries: seq<SearchEntry>): (r: seq<string>)
    ensures |r| <= |entries|
  {
    if entries == [] then []
    else
      var n := |entries| - 1;
      FoundUrls(entries[..n]) + if entries[n].found then [entries[n].url] else []
  }

  /** A url is reported exactly when some entry with that url was found. */
  lemma {:induction false} FoundUrlsMembership(entries: seq<SearchEntry>, u: string)
    ensures u in FoundUrls(entries) <==>
      exists j :: 0 <= j < |entries| && entries[j].url == u && entries[j].found
  {
    if entries != [] {
      var n := |entries| - 1;
      var init := entries[..n];
      FoundUrlsMembership(init, u);
      if u in FoundUrls(entries) && u in FoundUrls(init) {
        var j :| 0 <= j < |init| && init[j].url == u && init[j].found;
        assert entries[j] == init[j];
      }
      if exists j :: 0 <= j < |entries| && entries[j].url == u && entries[j].found {
        var j :| 0 <= j < |entries| && entries[j].url == u && entries[j].found;
        if j < n {
          assert init[j] == entries[j];
        }
      }
    }
  }

  /** The alerts sent for the entries marked found, one per such entry, in
      order; `stamps[i]` is the time read for the i-th site. */
  function EntryAlerts(entries: seq<SearchEntry>, kw: string, stamps: seq<string>): (r: seq<string>)
    requires |entries| <= |stamps|
    ensures |r| == |FoundUrls(entries)|
  {
    if entries == [] then []
    else
      var n := |entries| - 1;
      EntryAlerts(entries[..n], kw, stamps)
      + if entries[n].found then [KeywordAlertMessage(kw, entries[n].url, stamps[n])] else []
  }

  /** The entries of one more site. */
  lemma EntriesStep(sites: seq<Site>, kw: string, i: nat)
    requires i < |sites|
    ensures Entries(sites[..i + 1], kw) == Entries(sites[..i], kw) + [Entry(sites[i], kw)]
  {
    assert sites[..i + 1][..i] == sites[..i];
  }

  /** What one more entry adds to the reported urls and to the alerts. */
  lemma SearchStep(entries: seq<SearchEntry>, e: SearchEntry, kw: string, stamps: seq<string>)
    requires |entries| < |stamps|
    ensures FoundUrls(entries + [e]) == FoundUrls(entries) + if e.found then [e.url] else []
    ensures EntryAlerts(entries + [e], kw, stamps)
            == EntryAlerts(entries, kw, stamps)
               + if e.found then [KeywordAlertMessage(kw, e.url, stamps[|entries|])] else []
  {
    assert (entries + [e])[..|entries|] == entries;
  }

  /** Concatenation is associative; stated once so that equalities between
      lists of strings need not be proved element by element. */
  lemma AppendAssoc<T>(a: seq<T>, b: seq<T>, c: seq<T>)
    ensures (a + b) + c == a + (b + c)
  {
  }

  /** One pass of the loop body (lines 77-101): the entry for `site`, and
      the alert sent when it contains the keyword. */
  method VisitSite(site: Site, kw: string, stamp: string, log: AlertLog) returns (entry: SearchEntry)
    modifies log
    ensures entry == Entry(site, kw) && entry.url == site.url
    ensures log.sent == old(log.sent) + if entry.found then [KeywordAlertMessage(kw, site.url, stamp)] else []
  {
    var found := Contains(Lower(site.content), kw);
    var status;
    if found {
      log.Send(KeywordAlertMessage(kw, site.url, stamp));
      status := AlertSentStatus;
    } else {
      status := NoAlertStatus;
    }
    entry := SearchEntry(site.url, ManualSource, found, status);
  }

  /** Lines 76-101: the loop over the dataset; one entry per site, one
      reported url and one alert per site containing `kw`. */
  method SearchSites(sites: seq<Site>, kw: string, stamps: seq<string>, log: AlertLog)
    returns (results: seq<SearchEntry>, alerted: seq<string>)
    requires |stamps| == |sites|
    modifies log
    ensures |results| == |sites|
    ensures results == Entries(sites, kw)
    ensures alerted == FoundUrls(results)
    ensures log.sent == old(log.sent) + EntryAlerts(results, kw, stamps)
  {
    results, alerted := [], [];
    ghost var sent0 := log.sent;
    var i := 0;
    while i < |sites|
      invariant 0 <= i <= |sites|
      invariant results == Entries(sites[..i], kw)
      invariant |results| == i
      invariant alerted == FoundUrls(results)
      invariant log.sent == sent0 + EntryAlerts(results, kw, stamps)
    {
      ghost var before := EntryAlerts(results, kw, stamps);
      var entry := VisitSite(sites[i], kw, stamps[i], log);
      ghost var added := if entry.found then [KeywordAlertMessage(kw, sites[i].url, stamps[i])] else [];
      AppendAssoc(sent0, before, added);
      SearchStep(results, entry, kw, stamps);
      EntriesStep(sites, kw, i);
      if entry.found {
        alerted := alerted + [sites[i].url];
      }
      results := results + [entry];
      i := i + 1;
    }
    assert sites[..i] == sites;
  }

  /** `keyword_search(payload)`; `stamps[i]` is the formatted clock reading
      taken if the i-th site matches. */
  method KeywordSearch(payload: Payload, stamps: seq<string>, log: AlertLog) returns (r: Result<SearchResponse>)
    requires |stamps| == |Websites|
    modifies log
    ensures NormalizedKeyword(payload).Raise? ==> r == Raise(AttributeError) && log.sent == old(log.sent)
    ensures NormalizedKeyword(payload) == Ok("") ==>
      r == Ok(SearchError(NoKeywordError)) && log.sent == old(log.sent)
    ensures NormalizedKeyword(payload).Ok? && NormalizedKeyword(payload).value != "" ==>
      && r.Ok? && r.value.SearchResults?
      && r.value.keyword == NormalizedKeyword(payload).value
      && |r.value.results| == |Websites|
      && (forall i :: 0 <= i < |Websites| ==> r.value.results[i] == Entry(Websites[i], r.value.keyword))
      && r.value.alertedSites == FoundUrls(r.value.results)
      && log.sent == old(log.sent) + EntryAlerts(r.value.results, r.value.keyword, stamps)
  {
    var normalized := NormalizedKeyword(payload);
    if normalized.Raise? {
      return Raise(AttributeError);
    }
    var keyword := normalized.value;
    if keyword == "" {
      return Ok(SearchError(NoKeywordError));
    }
    var results, alerted := SearchSites(Websites, keyword, stamps, log);
    EntriesAt(Websites, keyword);
    r := Ok(SearchResults(keyword, results, alerted));
  }

  lemma LowerPassword()
    ensures Lower(" Password ") == " password "
  {
    assert " Password " == " P" + "assword ";
    LowerAppend(" P", "assword ");
    assert Lower(" P") == " p";
    assert IsLowerCase("assword ");
    LowerOfLowerCase("assword ");
  }

  /** `" Password "` normalises to `"password"`. */
  lemma PasswordKeywordNormalizes()
    ensures NormalizedKeyword(map["keyword" := JString(" Password ")]) == Ok("password")
  {
    LowerPassword();
    assert " password " == [' '] + "password" + [' '];
    StripPadded("password");
  }

  lemma LeaktestContentSlice()
    ensures "User password leaked database"[5..13] == "password"
  {
    var content := "User password leaked database";
    assert forall j :: 5 <= j < 13 ==> content[j] == "password"[j - 5];
  }

  lemma LeaktestHasPassword()
    ensures Entry(Websites[1], "password").found
  {
    var content := Websites[1].content;
    LeaktestContentSlice();
    LowerSlice(content, 5, 13);
    LowerOfLowerCase("password");
    assert OccursAt(Lower(content), "password", 5);
  }

  /** Neither the first nor the third site has a 'p' in its lower-cased
      content. */
  lemma OthersLackPassword()
    ensures !Entry(Websites[0], "password").found
    ensures !Entry(Websites[2], "password").found
  {
    MissingCharNotContained(Lower(Websites[0].content), "password", 0);
    MissingCharNotContained(Lower(Websites[2].content), "password", 0);
  }

  /** Of the three sites only the second contains "password". */
  lemma PasswordFoundOnlyAtLeaktest()
    ensures FoundUrls(Entries(Websites, "password")) == ["https://leaktest.com"]
  {
    var es := Entries(Websites, "password");
    EntriesAt(Websites, "password");
    OthersLackPassword();
    LeaktestHasPassword();
    assert !es[0].found && es[1].found && !es[2].found;
    assert es[1].url == "https://leaktest.com";
    assert es[..2][..1] == es[..1];
    assert es[..1][..0] == [];
    assert FoundUrls(es[..1]) == [];
    assert FoundUrls(es[..2]) == [es[1].url];
    assert es[..2] == es[..|es| - 1];
  }

  /** The scan form posts `{url, source}` to the search route: the payload
      has no `keyword`, so the request lands in the empty-keyword branch and
      returns the error record, whatever the url. */
  lemma ScanFormPayloadHasNoKeyword(url: Json, source: Json)
    ensures NormalizedKeyword(map["url" := url, "source" := source]) == Ok("")
  {
  }

  // ---------------------------------------------------------------------
  // POST /api/scan

  const NoUrlError := "No URL provided"
  /** "Scan started — analyzing target." (U+2014 is the dash). */
  const ScanStartedStatus: string := "Scan started " + ['\U{2014}'] + " analyzing target."

  /** `run_fake_analysis(url, source)` waiting in the background queue. */
  datatype AnalysisTask = RunFakeAnalysis(url: Json, source: Json)

  datatype ScanResponse = ScanError(error: string) | ScanStarted(status: string)

  /** Lines 116-120: the task a scan request asks for, or None when `url` is
      missing or falsy. `source` defaults to "manual" only when absent. */
  function ScanRequest(payload: Payload): (r: Option<AnalysisTask>)
    ensures r.None? <==> "url" !in payload || !PyTruthy(payload["url"])
    ensures r.Some? ==> r.value.url == payload["url"]
    ensures r.Some? ==> r.value.source == (if "source" in payload then payload["source"] else JString(ManualSource))
  {
    var source := if "source" in payload then payload["source"] else JString(ManualSource);
    if "url" !in payload || !PyTruthy(payload["url"]) then None
    else Some(RunFakeAnalysis(payload["url"], source))
  }

  /** The scan form's payload, sent to the scan route instead, schedules
      exactly the requested scan. */
  lemma ScanFormPayloadSchedulesAtScanRoute(url: string, source: string)
    requires url != ""
    ensures ScanRequest(map["url" := JString(url), "source" := JString(source)])
            == Some(RunFakeAnalysis(JString(url), JString(source)))
  {
  }

  /** FastAPI's `BackgroundTasks`: tasks queued to run after the response. */
  class BackgroundTasks {
    var queued: seq<AnalysisTask>

    constructor ()
      ensures queued == []
    {
      queued := [];
    }

    method AddTask(t: AnalysisTask)
      modifies this
      ensures queued == old(queued) + [t]
    {
      queued := queued + [t];
    }
  }

  /** `start_scan(payload, background_tasks)`: an error record and nothing
      queued, or exactly one queued task. */
  method StartScan(payload: Payload, bg: BackgroundTasks) returns (r: ScanResponse)
    modifies bg
    ensures ScanRequest(payload).None? ==> r == ScanError(NoUrlError) && bg.queued == old(bg.queued)
    ensures ScanRequest(payload).Some? ==>
      r == ScanStarted(ScanStartedStatus) && bg.queued == old(bg.queued) + [ScanRequest(payload).value]
  {
    var url := if "url" in payload then payload["url"] else JNull;
    var source := if "source" in payload then payload["source"] else JString(ManualSource);
    if !PyTruthy(url) {
      return ScanError(NoUrlError);
    }
    bg.AddTask(RunFakeAnalysis(url, source));
    r := ScanStarted(ScanStartedStatus);
  }

  // ---------------------------------------------------------------------
  // ConnectionManager

  /** A WebSocket connection, by identity. */
  type ConnId = nat

  datatype Delivery = Delivery(conn: ConnId, message: Json)

  /** `list.remove(x)` on a list holding `x`: drops its first occurrence. */
  function RemoveFirst(s: seq<ConnId>, x: ConnId): (r: seq<ConnId>)
    ensures x in s ==> |r| == |s| - 1 && multiset(r) == multiset(s) - multiset{x}
    ensures x !in s ==> r == s
  {
    if s == [] then []
    else if s[0] == x then
      assert s == [s[0]] + s[1..];
      s[1..]
    else
      assert s == [s[0]] + s[1..];
      [s[0]] + RemoveFirst(s[1..], x)
  }

  /** The occurrence removed is the first one; the others keep their order. */
  lemma {:induction false} RemoveFirstAt(s: seq<ConnId>, x: ConnId, i: nat)
    requires i < |s| && s[i] == x && x !in s[..i]
    ensures RemoveFirst(s, x) == s[..i] + s[i + 1..]
  {
    if i > 0 {
      assert s[0] != x by { assert s[0] == s[..i][0]; }
      assert s[1..][..i - 1] == s[1..i];
      assert x !in s[1..][..i - 1];
      RemoveFirstAt(s[1..], x, i - 1);
      assert s[..i] == [s[0]] + s[1..i];
    }
  }

  /** A connection that joins and then leaves restores the list. */
  lemma {:induction false} ConnectThenDisconnect(s: seq<ConnId>, x: ConnId)
    requires x !in s
    ensures RemoveFirst(s + [x], x) == s
  {
    if s != [] {
      assert (s + [x])[1..] == s[1..] + [x];
      ConnectThenDisconnect(s[1..], x);
    }
  }

  class ConnectionManager {
    var active: seq<ConnId>

    constructor ()
      ensures active == []
    {
      active := [];
    }

    /** `connect(websocket)`: appends at the end. */
    method Connect(ws: ConnId)
      modifies this
      ensures active == old(active) + [ws]
    {
      active := active + [ws];
    }

    /** `disconnect(websocket)`: removes one occurrence; `ValueError` when
        the connection is not in the list. */
    method Disconnect(ws: ConnId) returns (r: Result<()>)
      modifies this
      ensures ws in old(active) ==> r == Ok(()) && active == RemoveFirst(old(active), ws)
      ensures ws !in old(active) ==> r == Raise(ValueError) && active == old(active)
    {
      if ws !in active {
        return Raise(ValueError);
      }
      active := RemoveFirst(active, ws);
      r := Ok(());
    }

    /** `broadcast(message)`: one delivery to each active connection, in
        list order. */
    method Broadcast(message: Json) returns (deliveries: seq<Delivery>)
      ensures |deliveries| == |active|
      ensures forall i :: 0 <= i < |active| ==> deliveries[i] == Delivery(active[i], message)
    {
      deliveries := [];
      for i := 0 to |active|
        invariant |deliveries| == i
        invariant forall j :: 0 <= j < i ==> deliveries[j] == Delivery(active[j], message)
      {
        deliveries := deliveries + [Delivery(active[i], message)];
      }
    }
  }
}
