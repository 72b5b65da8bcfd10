/** The catalog matcher and transactional batch writer of handlers/tle.go,
    written out twice in the source (in UpdateTles and in AutoUpdateTLEs)
    and merged here into one: every record is checked against
    the satellite table, records of known satellites are inserted, all
    inside one transaction that is committed only when something was
    inserted. */
module Batch {
  import opened Wrappers
  import opened Seqs
  import opened Models
  import opened Store

  /** Which database calls fail, by record position: the existence query of
      the records in queryFails, the insert of those in insertFails. */
  datatype Faults = Faults(queryFails: set<nat>, insertFails: set<nat>)

  /** No database call fails. */
  const NoFaults := Faults({}, {})

  /** What happens to one record in the loop. */
  datatype Outcome = QueryFailed | NotInCatalog | InsertFailed | Inserted

  function Classify(catalog: set<string>, t: Tle, i: nat, faults: Faults): Outcome {
    if i in faults.queryFails then QueryFailed
    else if t.satNoardId !in catalog then NotInCatalog
    else if i in faults.insertFails then InsertFailed
    else Inserted
  }

  /** The loop's counters `inserted` and `skipped`, its `notFound` list, and
      the rows it buffered in the transaction. */
  datatype Tally = Tally(inserted: nat, skipped: nat, notFound: seq<string>, written: seq<Tle>)

  function Count(tally: Tally, o: Outcome, t: Tle): Tally {
    match o
    case QueryFailed => tally.(skipped := tally.skipped + 1)
    case NotInCatalog => tally.(skipped := tally.skipped + 1, notFound := tally.notFound + [t.satNoardId])
    case InsertFailed => tally.(skipped := tally.skipped + 1)
    case Inserted => tally.(inserted := tally.inserted + 1, written := tally.written + [t])
  }

  /** The tally after the loop over `records`: every record is counted once,
      as inserted or as skipped; every inserted record is buffered; only
      skipped records reach notFound. */
  function TallyOf(catalog: set<string>, records: seq<Tle>, faults: Faults): (r: Tally)
    ensures r.inserted + r.skipped == |records|
    ensures |r.written| == r.inserted
    ensures |r.notFound| <= r.skipped
    decreases |records|
  {
    if records == [] then Tally(0, 0, [], [])
    else
      var n := |records| - 1;
      Count(TallyOf(catalog, records[..n], faults), Classify(catalog, records[n], n, faults), records[n])
  }

  /** Reference definitions for the fault-free case: the records of known
      satellites, and the catalog numbers of the others, in input order. */
  function Known(catalog: set<string>, records: seq<Tle>): seq<Tle> {
    if records == [] then []
    else (if records[0].satNoardId in catalog then [records[0]] else []) + Known(catalog, records[1..])
  }

  function UnknownIds(catalog: set<string>, records: seq<Tle>): seq<string> {
    if records == [] then []
    else (if records[0].satNoardId in catalog then [] else [records[0].satNoardId]) + UnknownIds(catalog, records[1..])
  }

  lemma {:induction false} KnownSnoc(catalog: set<string>, records: seq<Tle>, t: Tle)
    ensures Known(catalog, records + [t]) == Known(catalog, records) + (if t.satNoardId in catalog then [t] else [])
    ensures UnknownIds(catalog, records + [t]) == UnknownIds(catalog, records) + (if t.satNoardId in catalog then [] else [t.satNoardId])
    decreases |records|
  {
    if records == [] {
      assert records + [t] == [t];
    } else {
      assert (records + [t])[0] == records[0] && (records + [t])[1..] == records[1..] + [t];
      KnownSnoc(catalog, records[1..], t);
      var h := if records[0].satNoardId in catalog then [records[0]] else [];
      var x := if t.satNoardId in catalog then [t] else [];
      SeqAssoc(h, Known(catalog, records[1..]), x);
      var hu := if records[0].satNoardId in catalog then [] else [records[0].satNoardId];
      var xu := if t.satNoardId in catalog then [] else [t.satNoardId];
      SeqAssoc(hu, UnknownIds(catalog, records[1..]), xu);
    }
  }



  /** With no database failure, the loop inserts exactly the records of
      satellites in the catalog and reports every other catalog number as
      not found, both in input order and duplicates included. */
  lemma {:induction false} TallyWithoutFaults(catalog: set<string>, records: seq<Tle>)
    ensures TallyOf(catalog, records, NoFaults).written == Known(catalog, records)
    ensures TallyOf(catalog, records, NoFaults).notFound == UnknownIds(catalog, records)
    ensures TallyOf(catalog, records, NoFaults).inserted == |Known(catalog, records)|
    ensures TallyOf(catalog, records, NoFaults).skipped == |UnknownIds(catalog, records)|
    decreases |records|
  {
    if records != [] {
      var n := |records| - 1;
      TallyWithoutFaults(catalog, records[..n]);
      KnownSnoc(catalog, records[..n], records[n]);
      assert records[..n] + [records[n]] == records;
    }
  }

  /** Every buffered row is one of the input records and belongs to a
      satellite in the catalog; every catalog number in notFound is absent
      from the catalog. */
  lemma {:induction false} TallySound(catalog: set<string>, records: seq<Tle>, faults: Faults)
    ensures forall t :: t in TallyOf(catalog, records, faults).written ==> t in records && t.satNoardId in catalog
    ensures forall id :: id in TallyOf(catalog, records, faults).notFound ==> id !in catalog
    decreases |records|
  {
    if records != [] {
      var n := |records| - 1;
      TallySound(catalog, records[..n], faults);
      assert forall t :: t in records[..n] ==> t in records;
    }
  }

  /** The records whose positions are not in fs, in input order. */
  function Drop(records: seq<Tle>, fs: set<nat>): (kept: seq<Tle>)
    ensures |kept| <= |records|
    ensures forall t :: t in kept ==> t in records
  {
    if records == [] then []
    else
      var n := |records| - 1;
      assert forall t :: t in records[..n] ==> t in records;
      Drop(records[..n], fs) + if n in fs then [] else [records[n]]
  }

  /** The loop under any mix of database failures: a record whose existence
      query fails is neither inserted nor reported, so notFound lists, in
      input order, the unknown catalog numbers among the records whose query
      answered; the buffered rows are, in input order, the known records
      whose query and insert both succeeded. */
  lemma {:induction false} TallyWithFaults(catalog: set<string>, records: seq<Tle>, faults: Faults)
    ensures TallyOf(catalog, records, faults).notFound == UnknownIds(catalog, Drop(records, faults.queryFails))
    ensures TallyOf(catalog, records, faults).written
         == Known(catalog, Drop(records, faults.queryFails + faults.insertFails))
    ensures TallyOf(catalog, records, faults).skipped
         == |records| - |Known(catalog, Drop(records, faults.queryFails + faults.insertFails))|
    decreases |records|
  {
    if records != [] {
      var n := |records| - 1;
      var t := records[n];
      var qf, both := faults.queryFails, faults.queryFails + faults.insertFails;
      var answered, written := Drop(records[..n], qf), Drop(records[..n], both);
      TallyWithFaults(catalog, records[..n], faults);
      KnownSnoc(catalog, answered, t);
      KnownSnoc(catalog, written, t);
      assert answered + [] == answered && written + [] == written;
      match Classify(catalog, t, n, faults)
      case QueryFailed =>
        assert Drop(records, qf) == answered && Drop(records, both) == written;
      case NotInCatalog =>
        assert Drop(records, qf) == answered + [t];
      case InsertFailed =>
        assert Drop(records, qf) == answered + [t] && Drop(records, both) == written;
      case Inserted =>
        assert Drop(records, qf) == answered + [t] && Drop(records, both) == written + [t];
    }
  }

  /** A record whose existence query fails is skipped and never reported as
      not found: when every query fails, nothing is inserted, everything is
      skipped, and notFound stays empty. */
  lemma {:induction false} QueryFailuresNotReported(catalog: set<string>, records: seq<Tle>, faults: Faults)
    requires forall i :: 0 <= i < |records| ==> i in faults.queryFails
    ensures TallyOf(catalog, records, faults) == Tally(0, |records|, [], [])
    decreases |records|
  {
    if records != [] {
      var n := |records| - 1;
      QueryFailuresNotReported(catalog, records[..n], faults);
    }
  }

  /** The match/insert loop of the handlers: checks each record against the
      satellite table and inserts the known ones through tx. */
  method MatchAndInsert(tx: Transaction, records: seq<Tle>, faults: Faults)
    returns (inserted: nat, skipped: nat, notFound: seq<string>)
    requires !tx.done
    modifies tx
    ensures !tx.done
    ensures var t := TallyOf(tx.db.catalog, records, faults);
      inserted == t.inserted && skipped == t.skipped && notFound == t.notFound
    ensures tx.pending == old(tx.pending) + TallyOf(tx.db.catalog, records, faults).written
  {
    ghost var start := tx.pending;
    inserted, skipped, notFound := 0, 0, [];
    var i := 0;
    while i < |records|
      invariant 0 <= i <= |records|
      invariant !tx.done
      invariant tx.pending == start + TallyOf(tx.db.catalog, records[..i], faults).written
      invariant inserted == TallyOf(tx.db.catalog, records[..i], faults).inserted
      invariant skipped == TallyOf(tx.db.catalog, records[..i], faults).skipped
      invariant notFound == TallyOf(tx.db.catalog, records[..i], faults).notFound
    {
      var t := records[i];
      assert records[..i + 1][..i] == records[..i];
      var found := tx.SatelliteExists(t.satNoardId, i in faults.queryFails);
      if found.Failure? {
        skipped := skipped + 1;
      } else if !found.value {
        notFound := notFound + [t.satNoardId];
        skipped := skipped + 1;
      } else {
        var ok := tx.Insert(t, i in faults.insertFails);
        if !ok {
          skipped := skipped + 1;
        } else {
          inserted := inserted + 1;
        }
      }
      i := i + 1;
    }
    assert records[..i] == records;
  }

  /** Why a batch write fails. */
  datatype BatchError =
    | BeginFailed
    | NothingInserted(skipped: nat, notFound: seq<string>)
    | CommitFailed

  /** The data part of a successful reply. */
  datatype BatchReport = BatchReport(inserted: nat, skipped: nat, total: nat, notFound: seq<string>)

  /** The reply of the batch writer: begin, match and insert, then roll back
      when nothing was inserted, otherwise commit. */
  function BatchResult(catalog: set<string>, records: seq<Tle>, faults: Faults, beginFails: bool, commitFails: bool)
    : Result<BatchReport, BatchError>
  {
    if beginFails then Failure(BeginFailed)
    else
      var t := TallyOf(catalog, records, faults);
      if t.inserted == 0 then Failure(NothingInserted(t.skipped, t.notFound))
      else if commitFails then Failure(CommitFailed)
      else Success(BatchReport(t.inserted, t.skipped, |records|, t.notFound))
  }

  /** The tle table after the batch writer ran on `table`. */
  function TableAfter(catalog: set<string>, table: seq<Tle>, records: seq<Tle>, faults: Faults,
                      beginFails: bool, commitFails: bool): seq<Tle>
  {
    if BatchResult(catalog, records, faults, beginFails, commitFails).Success?
    then table + TallyOf(catalog, records, faults).written
    else table
  }

  /** The transactional writer: one transaction with a deferred rollback. */
  method WriteBatch(db: Database, records: seq<Tle>, faults: Faults, beginFails: bool, commitFails: bool)
    returns (r: Result<BatchReport, BatchError>)
    modifies db
    ensures r == BatchResult(old(db.catalog), records, faults, beginFails, commitFails)
    ensures db.tle == TableAfter(old(db.catalog), old(db.tle), records, faults, beginFails, commitFails)
    ensures db.catalog == old(db.catalog)
  {
    if beginFails {
      return Failure(BeginFailed);
    }
    var tx := new Transaction.Begin(db);
    var inserted, skipped, notFound := MatchAndInsert(tx, records, faults);
    if inserted == 0 {
      tx.Rollback();
      return Failure(NothingInserted(skipped, notFound));
    }
    var ok := tx.Commit(commitFails);
    tx.Rollback();
    if !ok {
      return Failure(CommitFailed);
    }
    return Success(BatchReport(inserted, skipped, |records|, notFound));
  }

  /** A successful batch appends exactly the inserted rows, in input order,
      each of a satellite in the catalog; the reply's counters add up to the
      number of records and notFound is no longer than the skipped count. */
  lemma BatchSuccess(catalog: set<string>, table: seq<Tle>, records: seq<Tle>, faults: Faults,
                     beginFails: bool, commitFails: bool)
    requires BatchResult(catalog, records, faults, beginFails, commitFails).Success?
    ensures var rep := BatchResult(catalog, records, faults, beginFails, commitFails).value;
      && rep.inserted > 0 && rep.inserted + rep.skipped == rep.total == |records|
      && |rep.notFound| <= rep.skipped
      && var after := TableAfter(catalog, table, records, faults, beginFails, commitFails);
         |after| == |table| + rep.inserted && after[..|table|] == table
         && forall k :: |table| <= k < |after| ==> after[k] in records && after[k].satNoardId in catalog
  {
    TallySound(catalog, records, faults);
    var w := TallyOf(catalog, records, faults).written;
    var after := table + w;
    assert after[..|table|] == table;
    forall k | |table| <= k < |after| ensures after[k] in records && after[k].satNoardId in catalog {
      assert after[k] == w[k - |table|];
    }
  }

  /** Any failure, and in particular a batch that inserts nothing, leaves
      the tle table as it was. */
  lemma BatchFailureChangesNothing(catalog: set<string>, table: seq<Tle>, records: seq<Tle>, faults: Faults,
                                   beginFails: bool, commitFails: bool)
    ensures TallyOf(catalog, records, faults).inserted == 0 ==>
      BatchResult(catalog, records, faults, beginFails, commitFails).Failure?
    ensures BatchResult(catalog, records, faults, beginFails, commitFails).Failure? <==>
      TableAfter(catalog, table, records, faults, beginFails, commitFails) == table
      && (beginFails || commitFails || TallyOf(catalog, records, faults).inserted == 0)
  {
    if BatchResult(catalog, records, faults, beginFails, commitFails).Success? {
      assert TallyOf(catalog, records, faults).inserted > 0;
    }
  }

  /** Rows are not deduplicated: running the same fault-free batch twice
      stores the known records twice. */
  lemma RepeatedBatchDuplicates(catalog: set<string>, table: seq<Tle>, records: seq<Tle>)
    requires Known(catalog, records) != []
    ensures var once := TableAfter(catalog, table, records, NoFaults, false, false);
      TableAfter(catalog, once, records, NoFaults, false, false)
        == table + Known(catalog, records) + Known(catalog, records)
  {
    TallyWithoutFaults(catalog, records);
  }
}
