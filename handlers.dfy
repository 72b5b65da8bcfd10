/** The run-level flow of the two TLE update handlers of handlers/tle.go:
    UpdateTles writes a list of records posted by the client, AutoUpdateTLEs
    fetches every configured source and writes what they yield. Both end in
    the batch writer. */
module Handlers {
  import opened Wrappers
  import opened Models
  import opened Store
  import opened Batch
  import opened TleStream

  /** Why a handler fails. */
  datatype HandlerError =
    | InvalidBody                                 // the JSON body did not decode
    | NoTleData                                   // the posted list is empty
    | SitesQueryFailed                            // SELECT ... FROM tle_site failed
    | NoSitesConfigured                           // no usable tle_site row
    | NothingFetched(failedSites: seq<string>)    // no source yielded a record
    | WriteFailed(cause: BatchError)              // begin, zero inserts, or commit

  /** The HTTP status the handler answers a failure with. */
  function StatusCode(e: HandlerError): (code: int)
    ensures code == 400 || code == 500
    ensures code == 500 <==> e.SitesQueryFailed? || e == WriteFailed(BeginFailed) || e == WriteFailed(CommitFailed)
  {
    match e
    case InvalidBody => 400
    case NoTleData => 400
    case SitesQueryFailed => 500
    case NoSitesConfigured => 400
    case NothingFetched(_) => 400
    case WriteFailed(cause) =>
      match cause
      case BeginFailed => 500
      case NothingInserted(_, _) => 400
      case CommitFailed => 500
  }

  // ---------------------------------------------------------------------
  // UpdateTles

  /** The reply of UpdateTles for a body that decoded to `body` (None when
      it did not decode). */
  function UpdateResult(catalog: set<string>, body: Option<seq<Tle>>, faults: Faults, beginFails: bool, commitFails: bool)
    : Result<BatchReport, HandlerError>
  {
    match body
    case None => Failure(InvalidBody)
    case Some(records) =>
      if records == [] then Failure(NoTleData)
      else match BatchResult(catalog, records, faults, beginFails, commitFails)
        case Failure(e) => Failure(WriteFailed(e))
        case Success(report) => Success(report)
  }

  /** The tle table after UpdateTles. */
  function UpdateTable(catalog: set<string>, table: seq<Tle>, body: Option<seq<Tle>>, faults: Faults,
                       beginFails: bool, commitFails: bool): seq<Tle>
  {
    match body
    case None => table
    case Some(records) =>
      if records == [] then table else TableAfter(catalog, table, records, faults, beginFails, commitFails)
  }

  method UpdateTles(db: Database, body: Option<seq<Tle>>, faults: Faults, beginFails: bool, commitFails: bool)
    returns (r: Result<BatchReport, HandlerError>)
    modifies db
    ensures r == UpdateResult(old(db.catalog), body, faults, beginFails, commitFails)
    ensures db.tle == UpdateTable(old(db.catalog), old(db.tle), body, faults, beginFails, commitFails)
    ensures db.catalog == old(db.catalog)
  {
    if body.None? {
      return Failure(InvalidBody);
    }
    var records := body.value;
    if |records| == 0 {
      return Failure(NoTleData);
    }
    var w := WriteBatch(db, records, faults, beginFails, commitFails);
    if w.Failure? {
      return Failure(WriteFailed(w.error));
    }
    return Success(w.value);
  }

  /** An undecodable body or an empty list is refused before any
      transaction: the table is unchanged and no database call is made. */
  lemma UpdateRejectsEarly(catalog: set<string>, table: seq<Tle>, body: Option<seq<Tle>>, faults: Faults,
                           beginFails: bool, commitFails: bool)
    requires body.None? || body.value == []
    ensures UpdateResult(catalog, body, faults, beginFails, commitFails).Failure?
    ensures UpdateResult(catalog, body, faults, beginFails, commitFails).error == (if body.None? then InvalidBody else NoTleData)
    ensures UpdateTable(catalog, table, body, faults, beginFails, commitFails) == table
  {
  }

  /** A successful update reports every posted record as inserted or
      skipped and adds exactly the inserted ones to the table. */
  lemma UpdateSuccess(catalog: set<string>, table: seq<Tle>, records: seq<Tle>, faults: Faults,
                      beginFails: bool, commitFails: bool)
    requires UpdateResult(catalog, Some(records), faults, beginFails, commitFails).Success?
    ensures var rep := UpdateResult(catalog, Some(records), faults, beginFails, commitFails).value;
      && rep.inserted + rep.skipped == rep.total == |records|
      && UpdateTable(catalog, table, Some(records), faults, beginFails, commitFails)
         == table + TallyOf(catalog, records, faults).written
      && |TallyOf(catalog, records, faults).written| == rep.inserted > 0
  {
    BatchSuccess(catalog, table, records, faults, beginFails, commitFails);
  }

  // ---------------------------------------------------------------------
  // AutoUpdateTLEs

  /** The rows of the tle_site query that scanned; a row that fails to scan
      (None) is skipped. */
  function ScannedSites(rows: seq<Option<Site>>): (sites: seq<Site>)
    ensures |sites| <= |rows|
    ensures forall s :: s in sites <==> Some(s) in rows
  {
    if rows == [] then []
    else
      var n := |rows| - 1;
      assert forall r :: r in rows <==> r in rows[..n] || r == rows[n];
      ScannedSites(rows[..n]) + if rows[n].Some? then [rows[n].value] else []
  }

  /** The scan loop over the tle_site rows. */
  method ScanSites(rows: seq<Option<Site>>) returns (sites: seq<Site>)
    ensures sites == ScannedSites(rows)
  {
    sites := [];
    var i := 0;
    while i < |rows|
      invariant 0 <= i <= |rows|
      invariant sites == ScannedSites(rows[..i])
    {
      assert rows[..i + 1][..i] == rows[..i];
      if rows[i].Some? {
        sites := sites + [rows[i].value];
      }
      i := i + 1;
    }
    assert rows[..i] == rows;
  }

  /** The records of every source that answered, concatenated in site order. */
  function Fetched(responses: seq<HttpResponse>, now: int): seq<Tle> {
    if responses == [] then []
    else
      var n := |responses| - 1;
      Fetched(responses[..n], now) + match FetchResult(responses[n], now)
        case Success(tles) => tles
        case Failure(_) => []
  }

  /** The labels of the sources that failed, in site order. */
  function FailedSites(sites: seq<Site>, responses: seq<HttpResponse>): (failed: seq<string>)
    requires |responses| == |sites|
    ensures |failed| <= |sites|
  {
    if sites == [] then []
    else
      var n := |sites| - 1;
      FailedSites(sites[..n], responses[..n]) + if FetchFails(responses[n]) then [sites[n].name] else []
  }

  /** The fetch loop of AutoUpdateTLEs; `responses[i]` is what the GET of
      sites[i].url yields. */
  method FetchAll(sites: seq<Site>, responses: seq<HttpResponse>, now: int)
    returns (allTles: seq<Tle>, failedSites: seq<string>)
    requires |responses| == |sites|
    ensures allTles == Fetched(responses, now)
    ensures failedSites == FailedSites(sites, responses)
  {
    allTles, failedSites := [], [];
    var i := 0;
    while i < |sites|
      invariant 0 <= i <= |sites|
      invariant allTles == Fetched(responses[..i], now)
      invariant failedSites == FailedSites(sites[..i], responses[..i])
    {
      assert responses[..i + 1][..i] == responses[..i] && sites[..i + 1][..i] == sites[..i];
      var tles := FetchTleFromUrl(responses[i], now);
      if tles.Failure? {
        failedSites := failedSites + [sites[i].name];
      } else {
        allTles := allTles + tles.value;
      }
      i := i + 1;
    }
    assert responses[..i] == responses && sites[..i] == sites;
  }

  /** The data part of a successful AutoUpdateTLEs reply. */
  datatype AutoReport = AutoReport(batch: BatchReport, sitesCount: nat, failedSites: seq<string>)

  /** The reply of AutoUpdateTLEs. `siteRows` is the result of the tle_site
      query (None when it failed). */
  function AutoResult(catalog: set<string>, siteRows: Option<seq<Option<Site>>>, responses: seq<HttpResponse>,
                      now: int, faults: Faults, beginFails: bool, commitFails: bool): Result<AutoReport, HandlerError>
    requires siteRows.Some? ==> |responses| == |ScannedSites(siteRows.value)|
  {
    match siteRows
    case None => Failure(SitesQueryFailed)
    case Some(rows) =>
      var sites := ScannedSites(rows);
      if sites == [] then Failure(NoSitesConfigured)
      else
        var all := Fetched(responses, now);
        var failed := FailedSites(sites, responses);
        if all == [] then Failure(NothingFetched(failed))
        else match BatchResult(catalog, all, faults, beginFails, commitFails)
          case Failure(e) => Failure(WriteFailed(e))
          case Success(report) => Success(AutoReport(report, |sites| - |failed|, failed))
  }

  /** The tle table after AutoUpdateTLEs. */
  function AutoTable(catalog: set<string>, table: seq<Tle>, siteRows: Option<seq<Option<Site>>>,
                     responses: seq<HttpResponse>, now: int, faults: Faults, beginFails: bool, commitFails: bool)
    : seq<Tle>
    requires siteRows.Some? ==> |responses| == |ScannedSites(siteRows.value)|
  {
    if siteRows.None? || ScannedSites(siteRows.value) == [] || Fetched(responses, now) == [] then table
    else TableAfter(catalog, table, Fetched(responses, now), faults, beginFails, commitFails)
  }

  method AutoUpdateTles(db: Database, siteRows: Option<seq<Option<Site>>>, responses: seq<HttpResponse>,
                        now: int, faults: Faults, beginFails: bool, commitFails: bool)
    returns (r: Result<AutoReport, HandlerError>)
    requires siteRows.Some? ==> |responses| == |ScannedSites(siteRows.value)|
    modifies db
    ensures r == AutoResult(old(db.catalog), siteRows, responses, now, faults, beginFails, commitFails)
    ensures db.tle == AutoTable(old(db.catalog), old(db.tle), siteRows, responses, now, faults, beginFails, commitFails)
    ensures db.catalog == old(db.catalog)
  {
    if siteRows.None? {
      return Failure(SitesQueryFailed);
    }
    var sites := ScanSites(siteRows.value);
    if |sites| == 0 {
      return Failure(NoSitesConfigured);
    }
    var allTles, failedSites := FetchAll(sites, responses, now);
    if |allTles| == 0 {
      return Failure(NothingFetched(failedSites));
    }
    var w := WriteBatch(db, allTles, faults, beginFails, commitFails);
    if w.Failure? {
      return Failure(WriteFailed(w.error));
    }
    return Success(AutoReport(w.value, |sites| - |failedSites|, failedSites));
  }

  /** A site is listed as failed exactly when its fetch failed, so the list
      is empty exactly when every source answered. */
  lemma {:induction false} FailedSitesExact(sites: seq<Site>, responses: seq<HttpResponse>)
    requires |responses| == |sites|
    ensures FailedSites(sites, responses) == []
        <==> forall i :: 0 <= i < |sites| ==> !FetchFails(responses[i])
    decreases |sites|
  {
    if sites != [] {
      var n := |sites| - 1;
      FailedSitesExact(sites[..n], responses[..n]);
      assert forall i :: 0 <= i < n ==> responses[..n][i] == responses[i];
    }
  }

  /** When every source fails, nothing is fetched and every site is listed
      as failed, in site order. */
  lemma {:induction false} AllSourcesFail(sites: seq<Site>, responses: seq<HttpResponse>, now: int)
    requires |responses| == |sites|
    requires forall i :: 0 <= i < |sites| ==> FetchFails(responses[i])
    ensures Fetched(responses, now) == []
    ensures |FailedSites(sites, responses)| == |sites|
    ensures forall i :: 0 <= i < |sites| ==> FailedSites(sites, responses)[i] == sites[i].name
    decreases |sites|
  {
    if sites != [] {
      var n := |sites| - 1;
      AllSourcesFail(sites[..n], responses[..n], now);
      FetchFailsExactly(responses[n], now);
      var f := FailedSites(sites, responses);
      var g := FailedSites(sites[..n], responses[..n]);
      assert f == g + [sites[n].name];
      forall i | 0 <= i < |sites| ensures f[i] == sites[i].name {
        if i < n { assert f[i] == g[i]; }
      }
    }
  }

  /** Every fetched record is well formed: trimmed lines with the prefixes
      "1 " and "2 ", a canonical catalog number taken from line 1, and the
      fetch time. */
  lemma {:induction false} FetchedWellFormed(responses: seq<HttpResponse>, now: int)
    ensures AllWellFormed(Fetched(responses, now), now)
    decreases |responses|
  {
    if responses != [] {
      var n := |responses| - 1;
      FetchedWellFormed(responses[..n], now);
      var last := match FetchResult(responses[n], now) case Success(tles) => tles case Failure(_) => [];
      assert AllWellFormed(last, now) by {
        if responses[n].Response? && FetchResult(responses[n], now).Success? {
          RunWellFormed(AwaitName, responses[n].lines, now);
        }
      }
      AllWellFormedAppend(Fetched(responses[..n], now), last, now);
    }
  }

  /** The run-level checks of AutoUpdateTLEs: a failed site query or no
      usable site fails before any fetch, and sources that together yield
      nothing fail before any transaction; in all three cases the table is
      unchanged. */
  lemma AutoRejectsEarly(catalog: set<string>, table: seq<Tle>, siteRows: Option<seq<Option<Site>>>,
                         responses: seq<HttpResponse>, now: int, faults: Faults, beginFails: bool, commitFails: bool)
    requires siteRows.Some? ==> |responses| == |ScannedSites(siteRows.value)|
    requires siteRows.None? || ScannedSites(siteRows.value) == [] || Fetched(responses, now) == []
    ensures var r := AutoResult(catalog, siteRows, responses, now, faults, beginFails, commitFails);
      && r.Failure?
      && (siteRows.None? ==> r.error == SitesQueryFailed)
      && (siteRows.Some? && ScannedSites(siteRows.value) == [] ==> r.error == NoSitesConfigured)
      && (siteRows.Some? && ScannedSites(siteRows.value) != [] ==>
            r.error == NothingFetched(FailedSites(ScannedSites(siteRows.value), responses)))
    ensures AutoTable(catalog, table, siteRows, responses, now, faults, beginFails, commitFails) == table
  {
  }

  /** A successful automatic update counts the sites that answered, totals
      the records of all sources, and adds to the table only well-formed
      records of satellites in the catalog, after the rows already there. */
  lemma AutoSuccess(catalog: set<string>, table: seq<Tle>, rows: seq<Option<Site>>,
                    responses: seq<HttpResponse>, now: int, faults: Faults, beginFails: bool, commitFails: bool)
    requires |responses| == |ScannedSites(rows)|
    requires AutoResult(catalog, Some(rows), responses, now, faults, beginFails, commitFails).Success?
    ensures var rep := AutoResult(catalog, Some(rows), responses, now, faults, beginFails, commitFails).value;
      var sites := ScannedSites(rows);
      && rep.sitesCount + |rep.failedSites| == |sites|
      && rep.batch.total == |Fetched(responses, now)| == rep.batch.inserted + rep.batch.skipped
      && var after := AutoTable(catalog, table, Some(rows), responses, now, faults, beginFails, commitFails);
         after[..|table|] == table && |after| == |table| + rep.batch.inserted
         && forall k :: |table| <= k < |after| ==> after[k].satNoardId in catalog && WellFormed(after[k], now)
  {
    var all := Fetched(responses, now);
    BatchSuccess(catalog, table, all, faults, beginFails, commitFails);
    FetchedWellFormed(responses, now);
  }
}
