/** The dashboard's shard-consistency and read-repair actions (action_check_shard_consistency and
    action_read_repairs). The Streamlit session state they read and write is a RepairSession; the
    widgets (buttons, radio, text area, progress bar) are left to the caller, who passes what was
    clicked. */
module RepairHandler {
  import opened Basics
  import opened Json
  import opened Inventory
  import opened ShardConsistency
  import opened ReadRepair

  /** The handler lists 1000 objects per page, with consistency level ALL. */
  const RepairLimit: nat := 1000

  /** The handler runs a single repair iteration (range(1, 2)). */
  const Iteration: nat := 1

  /** One line of the repair log, in the order the handler appends them. */
  datatype LogLine =
    | FetchingObjects(collection: string)
    | ListingError(status: int, text: string)
    | FetchedObjects(count: nat, collection: string)
    | IterationStarted(iteration: nat)
    | ObjectRead(iteration: nat, index: nat, total: nat, uuid: Value, outcome: ReadOutcome)
    | IterationComplete(iteration: nat)

  /** The progress bar's value as the fraction done / total. */
  datatype Progress = Progress(done: nat, total: nat)

  /** What the consistency action shows. */
  datatype ConsistencyView =
    | NodeInfoMissing
    | AllShardsConsistent
    | InconsistentShards(total: nat, report: seq<Row>)

  /** How a read-repair run ended. */
  datatype RepairOutcome =
    | NoNodeInfo
    | NothingToRepair
    | AwaitingSubmit
    | SelectionRejected
    | Repaired(collection: string)

  /** The report's collection column, row by row. */
  function ReportCollections(report: seq<Row>): (cs: seq<string>)
    ensures |cs| == |report|
  {
    MapSeq(report, (r: Row) => r.collection)
  }

  /** The collections of the report, each once, in first-seen order (Series.unique()). */
  function InconsistentCollections(report: seq<Row>): (cs: seq<string>)
    ensures NoDuplicates(cs)
    ensures forall c :: c in cs <==> exists r :: r in report && r.collection == c
  {
    var all := ReportCollections(report);
    assert forall c :: c in all <==> exists r :: r in report && r.collection == c by {
      forall c | exists r :: r in report && r.collection == c ensures c in all {
        var r :| r in report && r.collection == c;
        var i :| 0 <= i < |report| && report[i] == r;
        assert all[i] == c;
      }
    }
    Dedupe(all)
  }

  /** The count shown is the number of distinct collections in the report. */
  lemma InconsistentCollectionsCount(report: seq<Row>)
    ensures |InconsistentCollections(report)| == |set r | r in report :: r.collection|
  {
    var all := ReportCollections(report);
    DedupeLength(all);
    forall c | c in all ensures c in (set r | r in report :: r.collection) {
      var i :| 0 <= i < |all| && all[i] == c;
      assert report[i] in report;
    }
    forall c | c in (set r | r in report :: r.collection) ensures c in all {
      var r :| r in report && r.collection == c;
      var i :| 0 <= i < |report| && report[i] == r;
      assert all[i] == c;
    }
    assert (set c | c in all) == (set r | r in report :: r.collection);
  }

  /** A collection is offered for repair exactly when one of its shards has replicas whose object
      counts disagree. */
  lemma InconsistentCollectionsListed(nodes: seq<Node>, c: string)
    ensures c in InconsistentCollections(Report(Observations(nodes))) <==>
      exists k: ShardKey :: k.collection == c && Disagree(RowsOf(Observations(nodes), k))
  {
    var obs := Observations(nodes);
    if c in InconsistentCollections(Report(obs)) {
      var r :| r in Report(obs) && r.collection == c;
      ReportedRowsAreObserved(obs, r);
      assert KeyOf(r).collection == c;
    } else {
      forall k: ShardKey | k.collection == c ensures !Disagree(RowsOf(obs, k)) {
        ReportRowsOfKey(obs, k);
        var reported := RowsOf(Report(obs), k);
        assert forall r :: r in reported ==> r.collection == c;
        if RowsOf(obs, k) == [] {
          EmptyGroupAgrees(RowsOf(obs, k));
        }
      }
    }
  }

  /** action_check_shard_consistency: nothing to check without node information; otherwise the
      report and the number of distinct collections in it, or that all shards agree. */
  method ActionCheckShardConsistency(nodes: seq<Node>) returns (v: ConsistencyView)
    ensures nodes == [] <==> v == NodeInfoMissing
    ensures nodes != [] ==> (v == AllShardsConsistent <==> forall k :: !Disagree(RowsOf(Observations(nodes), k)))
    ensures v.InconsistentShards? ==>
      v.report == Report(Observations(nodes)) && v.total == |InconsistentCollections(v.report)|
  {
    if nodes == [] {
      return NodeInfoMissing;
    }
    var dfInconsistentShards := CheckShardConsistency(nodes);
    if dfInconsistentShards.Some? {
      var inconsistentCollections := InconsistentCollections(dfInconsistentShards.value);
      v := InconsistentShards(|inconsistentCollections|, dfInconsistentShards.value);
    } else {
      v := AllShardsConsistent;
    }
  }

  /** The log lines of the reads, one per id, numbered from 1, each with the total. */
  function ReadLines(read: ReadRequest -> ReadResponse, collection: string, ids: seq<Value>, total: nat): (lines: seq<LogLine>)
    ensures |lines| == |ids|
    ensures forall i :: 0 <= i < |ids| ==> (lines[i].ObjectRead? &&
      lines[i].index == i + 1 && lines[i].total == total && lines[i].uuid == ids[i] &&
      lines[i].iteration == Iteration &&
      (lines[i].outcome == Found <==> read(ReadRequest(collection, ids[i])).status == 200) &&
      (lines[i].outcome == NotFound <==> read(ReadRequest(collection, ids[i])).status == 404))
  {
    seq(|ids|, i requires 0 <= i < |ids| =>
      ObjectRead(Iteration, i + 1, total, ids[i], Classify(read(ReadRequest(collection, ids[i])))))
  }

  /** The whole log of a repair of `collection` whose listing was `l`. */
  function RepairLog(read: ReadRequest -> ReadResponse, collection: string, l: Listing): seq<LogLine> {
    [FetchingObjects(collection)]
    + (if l.error.Some? then [ListingError(l.error.value.0, l.error.value.1)] else [])
    + [FetchedObjects(|l.ids|, collection), IterationStarted(Iteration)]
    + ReadLines(read, collection, l.ids, |l.ids|)
    + [IterationComplete(Iteration)]
  }

  /** The progress bar after the reads: full after the last id, untouched when there is none. */
  function FinalProgress(n: nat): (p: Progress)
    ensures n > 0 ==> p.done == p.total
    ensures n == 0 ==> p.done == 0
  {
    if n == 0 then Progress(0, 1) else Progress(n, n)
  }

  predicate IsObjectRead(line: LogLine) {
    line.ObjectRead?
  }

  lemma {:induction false} FilterNone<T(!new)>(s: seq<T>, p: T -> bool)
    requires forall x :: x in s ==> !p(x)
    ensures Filter(s, p) == []
  {
    if s != [] {
      assert s[..|s| - 1] + [s[|s| - 1]] == s;
      FilterNone(s[..|s| - 1], p);
    }
  }

  lemma {:induction false} FilterAll<T(!new)>(s: seq<T>, p: T -> bool)
    requires forall x :: x in s ==> p(x)
    ensures Filter(s, p) == s
  {
    if s != [] {
      assert s[..|s| - 1] + [s[|s| - 1]] == s;
      FilterAll(s[..|s| - 1], p);
    }
  }

  /** The log opens with the fetch line, shows a listing error exactly when the listing ended on
      a non-200, and closes the iteration. */
  lemma RepairLogFrame(read: ReadRequest -> ReadResponse, collection: string, l: Listing)
    ensures RepairLog(read, collection, l)[0] == FetchingObjects(collection)
    ensures RepairLog(read, collection, l)[|RepairLog(read, collection, l)| - 1] == IterationComplete(Iteration)
    ensures (exists line :: line in RepairLog(read, collection, l) && line.ListingError?) <==> l.error.Some?
  {
    var log := RepairLog(read, collection, l);
    var readLines := ReadLines(read, collection, l.ids, |l.ids|);
    var k := if l.error.Some? then 1 else 0;
    assert |log| == |readLines| + 4 + k;
    assert forall i :: 0 <= i < |log| ==> (log[i].ListingError? <==> k == 1 && i == 1) by {
      forall i | 0 <= i < |log| ensures log[i].ListingError? <==> k == 1 && i == 1 {
        if 3 + k <= i < 3 + k + |readLines| {
          assert log[i] == readLines[i - 3 - k];
        }
      }
    }
    if l.error.Some? {
      assert log[1] in log;
    }
  }

  /** Whatever the reads answer, the log has exactly one read line per collected id. */
  lemma RepairLogReads(read: ReadRequest -> ReadResponse, collection: string, l: Listing)
    ensures |Filter(RepairLog(read, collection, l), IsObjectRead)| == |l.ids|
  {
    var e := if l.error.Some? then [ListingError(l.error.value.0, l.error.value.1)] else [];
    var a := [FetchingObjects(collection)] + e + [FetchedObjects(|l.ids|, collection), IterationStarted(Iteration)];
    var readLines := ReadLines(read, collection, l.ids, |l.ids|);
    var z := [IterationComplete(Iteration)];
    assert RepairLog(read, collection, l) == a + readLines + z;
    FilterConcat(a + readLines, z, IsObjectRead);
    FilterConcat(a, readLines, IsObjectRead);
    FilterNone(a, IsObjectRead);
    FilterNone(z, IsObjectRead);
    FilterAll(readLines, IsObjectRead);
  }

  /** The options the radio button shows: the stored list, or the report's collections when no
      list is stored yet. */
  function RadioOptions(stored: Option<seq<string>>, report: seq<Row>): (options: seq<string>)
    ensures stored.None? ==> forall c :: c in options <==> exists r :: r in report && r.collection == c
    ensures stored.Some? ==> options == stored.value
  {
    if stored.None? then InconsistentCollections(report) else stored.value
  }

  /** What the radio button leaves in "selected_collection": the stored choice, or the first
      option when nothing is stored yet (None when there is no option at all). */
  function RadioChoice(stored: Option<string>, options: seq<string>): (choice: Option<string>)
    ensures stored.Some? ==> choice == stored
    ensures stored.None? ==> (choice.Some? <==> options != [])
    ensures choice.Some? && stored.None? ==> choice.value == options[0]
  {
    if stored.None? && options != [] then Some(options[0]) else stored
  }

  /** On the first run with inconsistencies the radio button's default is a collection of the
      report, so a submit without touching the button is not rejected. */
  lemma FirstChoiceInReport(report: seq<Row>)
    requires report != []
    ensures RadioChoice(None, RadioOptions(None, report)).Some?
    ensures RadioChoice(None, RadioOptions(None, report)).value in InconsistentCollections(report)
  {
    assert report[0] in report;
  }

  /** The Streamlit session state the repair action keeps. */
  class RepairSession {
    /** The collections offered for repair; None until the action first finds inconsistencies. */
    var repairCollections: Option<seq<string>>
    /** The radio button's choice ("selected_collection"). */
    var selectedCollection: Option<string>
    var repairLogs: seq<LogLine>
    var progress: Progress

    constructor ()
      ensures repairCollections == None && selectedCollection == None
      ensures repairLogs == [] && progress == Progress(0, 1)
    {
      repairCollections := None;
      selectedCollection := None;
      repairLogs := [];
      progress := Progress(0, 1);
    }

    /** The operator picks a collection on the radio button. */
    method Select(c: string)
      modifies this
      ensures selectedCollection == Some(c)
      ensures repairCollections == old(repairCollections)
      ensures repairLogs == old(repairLogs) && progress == old(progress)
    {
      selectedCollection := Some(c);
    }

    /** The reads of one iteration: one read per id, in order, each logged with its 1-based index
        and the total, the progress bar moved to index / total after each. */
    method ReadEach(read: ReadRequest -> ReadResponse, collection: string, allUuids: seq<Value>)
      returns (readRequests: seq<ReadRequest>)
      modifies this
      requires progress == Progress(0, 1)
      ensures readRequests == ReadRequests(collection, allUuids)
      ensures repairLogs == old(repairLogs) + ReadLines(read, collection, allUuids, |allUuids|)
      ensures progress == FinalProgress(|allUuids|)
      ensures repairCollections == old(repairCollections) && selectedCollection == old(selectedCollection)
    {
      readRequests := [];
      ghost var head := repairLogs;
      var n := |allUuids|;
      for index := 1 to n + 1
        invariant readRequests == ReadRequests(collection, allUuids[..index - 1])
        invariant repairLogs == head + ReadLines(read, collection, allUuids[..index - 1], n)
        invariant progress == if index == 1 then Progress(0, 1) else Progress(index - 1, n)
        invariant repairCollections == old(repairCollections) && selectedCollection == old(selectedCollection)
      {
        var uuid := allUuids[index - 1];
        var req := ReadRequest(collection, uuid);
        var respSingle := read(req);
        var outcome;
        if respSingle.status == 200 {
          outcome := Found;
        } else if respSingle.status == 404 {
          outcome := NotFound;
        } else {
          outcome := Failed(respSingle.status, respSingle.text);
        }
        assert allUuids[..index] == allUuids[..index - 1] + [uuid];
        assert ReadLines(read, collection, allUuids[..index], n) ==
          ReadLines(read, collection, allUuids[..index - 1], n) + [ObjectRead(Iteration, index, n, uuid, outcome)];
        readRequests := readRequests + [req];
        repairLogs := repairLogs + [ObjectRead(Iteration, index, n, uuid, outcome)];
        progress := Progress(index, n);
      }
      assert allUuids[..n] == allUuids;
    }

    /** The submitted repair of `collection`: the log and the progress bar start afresh, the ids
        are listed (an error ends the listing and is logged, the repair goes on with the ids
        collected so far), then each id is read once. */
    method RunRepair(list: ListRequest -> Page, read: ReadRequest -> ReadResponse, collection: string, ghost bound: nat)
      returns (listRequests: seq<ListRequest>, readRequests: seq<ReadRequest>)
      modifies this
      requires EventuallyStops(list, collection, RepairLimit, true, bound)
      ensures var l := Enumerate(list, collection, RepairLimit, true, 0, bound);
        listRequests == l.requests &&
        readRequests == ReadRequests(collection, l.ids) &&
        repairLogs == RepairLog(read, collection, l) &&
        progress == FinalProgress(|l.ids|)
      ensures repairCollections == old(repairCollections) && selectedCollection == old(selectedCollection)
    {
      repairLogs := [];
      progress := Progress(0, 1);
      repairLogs := repairLogs + [FetchingObjects(collection)];
      var allUuids, error;
      listRequests, allUuids, error := ListAllIds(list, collection, RepairLimit, true, bound);
      ghost var l := Listing(listRequests, allUuids, error);
      ghost var errorLines: seq<LogLine> := if error.Some? then [ListingError(error.value.0, error.value.1)] else [];
      if error.Some? {
        repairLogs := repairLogs + [ListingError(error.value.0, error.value.1)];
      }
      assert repairLogs == [FetchingObjects(collection)] + errorLines;
      repairLogs := repairLogs + [FetchedObjects(|allUuids|, collection)];
      repairLogs := repairLogs + [IterationStarted(Iteration)];
      assert repairLogs == [FetchingObjects(collection)] + errorLines + [FetchedObjects(|l.ids|, collection), IterationStarted(Iteration)];
      readRequests := ReadEach(read, collection, allUuids);
      repairLogs := repairLogs + [IterationComplete(Iteration)];
      assert repairLogs == RepairLog(read, collection, l);
    }

    /** action_read_repairs for one run of the page: `refresh` and `submit` say whether the Refresh
        button and the form's submit button were clicked. */
    method ActionReadRepairs(nodes: seq<Node>, refresh: bool, submit: bool,
                             list: ListRequest -> Page, read: ReadRequest -> ReadResponse, ghost bound: nat)
      returns (outcome: RepairOutcome, listRequests: seq<ListRequest>, readRequests: seq<ReadRequest>)
      modifies this
      requires forall c :: EventuallyStops(list, c, RepairLimit, true, bound)
      ensures selectedCollection ==
        if nodes != [] && Report(Observations(nodes)) != []
        then RadioChoice(old(selectedCollection), RadioOptions(old(repairCollections), Report(Observations(nodes))))
        else old(selectedCollection)
      ensures nodes == [] ==> outcome == NoNodeInfo && repairCollections == old(repairCollections)
      ensures nodes != [] && Report(Observations(nodes)) == [] ==>
        outcome == NothingToRepair && repairCollections == old(repairCollections)
      ensures nodes != [] && Report(Observations(nodes)) != [] ==>
        repairCollections == if refresh || old(repairCollections).None?
          then Some(InconsistentCollections(Report(Observations(nodes))))
          else old(repairCollections)
      ensures outcome.Repaired? <==>
        nodes != [] && Report(Observations(nodes)) != [] && submit &&
        selectedCollection.Some? && selectedCollection.value in repairCollections.value
      ensures !outcome.Repaired? ==>
        listRequests == [] && readRequests == [] && repairLogs == old(repairLogs) && progress == old(progress)
      ensures outcome.Repaired? ==>
        outcome.collection == selectedCollection.value &&
        var l := Enumerate(list, outcome.collection, RepairLimit, true, 0, bound);
        listRequests == l.requests && readRequests == ReadRequests(outcome.collection, l.ids) &&
        repairLogs == RepairLog(read, outcome.collection, l) && progress == FinalProgress(|l.ids|)
    {
      listRequests, readRequests := [], [];
      if nodes == [] {
        return NoNodeInfo, listRequests, readRequests;
      }
      var dfInconsistent := CheckShardConsistency(nodes);
      if dfInconsistent.None? {
        return NothingToRepair, listRequests, readRequests;
      }
      var inconsistentCollections := InconsistentCollections(dfInconsistent.value);
      if repairCollections.None? {
        repairCollections := Some(inconsistentCollections);
      }
      var options := repairCollections.value;
      if selectedCollection.None? && options != [] {
        selectedCollection := Some(options[0]);
      }
      if refresh {
        repairCollections := Some(inconsistentCollections);
      }
      if !submit {
        return AwaitingSubmit, listRequests, readRequests;
      }
      var selected := selectedCollection;
      if selected.None? || selected.value !in repairCollections.value {
        return SelectionRejected, listRequests, readRequests;
      }
      listRequests, readRequests := RunRepair(list, read, selected.value, bound);
      outcome := Repaired(selected.value);
    }
  }
}
