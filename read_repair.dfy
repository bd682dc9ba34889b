/** The read-repair sweep over one collection: list every object id page by page, then read each
    id once with consistency level ALL so that the database repairs stale replicas on read. The
    object-listing and object-read endpoints are parameters (oracles) of the model. */
module ReadRepair {
  import opened Basics
  import opened Json

  /** A request to the object-listing endpoint (/v1/objects): the "class", "limit" and "offset"
      parameters, and whether "consistency_level": "ALL" is sent. */
  datatype ListRequest = ListRequest(collection: string, limit: nat, offset: nat, consistencyAll: bool)

  /** Its response: the status code, the body text, and the "objects" list of the decoded body
      (empty when the body has none). */
  datatype Page = Page(status: int, text: string, objects: seq<Dict>)

  /** A request for one object (/v1/objects/<collection>/<id>), always with consistency level ALL. */
  datatype ReadRequest = ReadRequest(collection: string, uuid: Value)

  datatype ReadResponse = ReadResponse(status: int, text: string)

  /** How a read came back: 200, 404, or any other status with the body text. */
  datatype ReadOutcome = Found | NotFound | Failed(status: int, text: string)

  /** What enumerating a collection did: the list requests it sent, the ids it collected, and the
      status and text of the response that ended it when that was not a 200. */
  datatype Listing = Listing(requests: seq<ListRequest>, ids: seq<Value>, error: Option<(int, string)>)

  /** The listing stops at a response that is not a 200 or has no objects. */
  predicate Stops(p: Page) {
    p.status != 200 || p.objects == []
  }

  /** The endpoint eventually ends the listing: from offset `bound` on, every page stops it. The
      code loops until that happens; the model needs the bound to know it does. */
  ghost predicate EventuallyStops(list: ListRequest -> Page, collection: string, limit: nat, consistencyAll: bool, bound: nat) {
    forall offset: nat ::
      offset >= bound ==> Stops(list(ListRequest(collection, limit, offset, consistencyAll)))
  }

  /** The ids of a page: each object's "id" (None when missing). */
  function IdsOf(objects: seq<Dict>): (ids: seq<Value>)
    ensures |ids| == |objects|
  {
    seq(|objects|, i requires 0 <= i < |objects| => GetOr(objects[i], "id", Null))
  }

  /** The listing from `offset` on: request the page, stop on a non-200 (keeping its status) or
      on an empty page, otherwise collect its ids and go on `limit` further. */
  function Enumerate(list: ListRequest -> Page, collection: string, limit: nat, consistencyAll: bool,
                     offset: nat, bound: nat): (l: Listing)
    requires limit > 0
    requires EventuallyStops(list, collection, limit, consistencyAll, bound)
    ensures |l.requests| >= 1
    decreases if offset < bound then bound - offset else 0
  {
    var req := ListRequest(collection, limit, offset, consistencyAll);
    var page := list(req);
    if page.status != 200 then Listing([req], [], Some((page.status, page.text)))
    else if page.objects == [] then Listing([req], [], None)
    else
      var rest := Enumerate(list, collection, limit, consistencyAll, offset + limit, bound);
      Listing([req] + rest.requests, IdsOf(page.objects) + rest.ids, rest.error)
  }

  /** A read's outcome from its status. */
  function Classify(r: ReadResponse): (o: ReadOutcome)
    ensures o == Found <==> r.status == 200
    ensures o == NotFound <==> r.status == 404
    ensures o.Failed? <==> r.status != 200 && r.status != 404
    ensures o.Failed? ==> o.status == r.status && o.text == r.text
  {
    if r.status == 200 then Found
    else if r.status == 404 then NotFound
    else Failed(r.status, r.text)
  }

  // ---------------------------------------------------------------------------------------------
  // Properties of the listing

  /** Request i asks for offset offset + i * limit, always with the same collection, limit and
      consistency. */
  lemma {:induction false} EnumerateOffsets(list: ListRequest -> Page, collection: string, limit: nat,
                                            consistencyAll: bool, offset: nat, bound: nat, i: nat)
    requires limit > 0
    requires EventuallyStops(list, collection, limit, consistencyAll, bound)
    requires i < |Enumerate(list, collection, limit, consistencyAll, offset, bound).requests|
    ensures Enumerate(list, collection, limit, consistencyAll, offset, bound).requests[i] ==
      ListRequest(collection, limit, offset + i * limit, consistencyAll)
    decreases if offset < bound then bound - offset else 0
  {
    if i > 0 {
      EnumerateOffsets(list, collection, limit, consistencyAll, offset + limit, bound, i - 1);
    }
  }

  /** The listing ends at the first page that stops it: every earlier request got a 200 with
      objects, the last one did not, and an error is kept exactly when that last page was not a
      200. */
  lemma {:induction false} EnumerateStopsAtFirst(list: ListRequest -> Page, collection: string, limit: nat,
                                                 consistencyAll: bool, offset: nat, bound: nat)
    requires limit > 0
    requires EventuallyStops(list, collection, limit, consistencyAll, bound)
    ensures var l := Enumerate(list, collection, limit, consistencyAll, offset, bound);
      (forall i :: 0 <= i < |l.requests| - 1 ==> !Stops(list(l.requests[i]))) &&
      Stops(list(l.requests[|l.requests| - 1])) &&
      (l.error.Some? <==> list(l.requests[|l.requests| - 1]).status != 200) &&
      (l.error.Some? ==> l.error.value.0 == list(l.requests[|l.requests| - 1]).status)
    decreases if offset < bound then bound - offset else 0
  {
    var l := Enumerate(list, collection, limit, consistencyAll, offset, bound);
    var req := ListRequest(collection, limit, offset, consistencyAll);
    if !Stops(list(req)) {
      var rest := Enumerate(list, collection, limit, consistencyAll, offset + limit, bound);
      EnumerateStopsAtFirst(list, collection, limit, consistencyAll, offset + limit, bound);
      assert l.requests == [req] + rest.requests;
      assert forall i :: 1 <= i < |l.requests| ==> l.requests[i] == rest.requests[i - 1];
    }
  }

  /** The ids of the page a request gets. */
  function PageIds(list: ListRequest -> Page): ListRequest -> seq<Value> {
    r => IdsOf(list(r).objects)
  }

  /** The ids collected are the ids of the pages answered before the last request, in order. */
  lemma {:induction false} EnumerateIds(list: ListRequest -> Page, collection: string, limit: nat,
                                        consistencyAll: bool, offset: nat, bound: nat)
    requires limit > 0
    requires EventuallyStops(list, collection, limit, consistencyAll, bound)
    ensures var l := Enumerate(list, collection, limit, consistencyAll, offset, bound);
      l.ids == FlatMap(l.requests[..|l.requests| - 1], PageIds(list))
    decreases if offset < bound then bound - offset else 0
  {
    var l := Enumerate(list, collection, limit, consistencyAll, offset, bound);
    var req := ListRequest(collection, limit, offset, consistencyAll);
    var f := PageIds(list);
    if !Stops(list(req)) {
      var rest := Enumerate(list, collection, limit, consistencyAll, offset + limit, bound);
      EnumerateIds(list, collection, limit, consistencyAll, offset + limit, bound);
      assert l == Listing([req] + rest.requests, IdsOf(list(req).objects) + rest.ids, rest.error);
      DropLastCons(req, rest.requests);
      FlatMapPrepend(req, rest.requests[..|rest.requests| - 1], f);
      assert f(req) == IdsOf(list(req).objects);
    } else {
      assert l.requests == [req] && l.ids == [];
      assert l.requests[..0] == [];
    }
  }

  lemma DropLastCons<T>(x: T, s: seq<T>)
    requires s != []
    ensures ([x] + s)[..|s|] == [x] + s[..|s| - 1]
  {
  }

  lemma {:induction false} FlatMapPrepend<T, U>(x: T, s: seq<T>, f: T -> seq<U>)
    ensures FlatMap([x] + s, f) == f(x) + FlatMap(s, f)
    decreases |s|
  {
    if s != [] {
      var front, last := s[..|s| - 1], s[|s| - 1];
      FlatMapPrepend(x, front, f);
      assert ([x] + s)[..|[x] + s| - 1] == [x] + front;
    }
  }

  // ---------------------------------------------------------------------------------------------
  // The loops

  lemma IdsStep(objects: seq<Dict>, j: nat)
    requires j < |objects|
    ensures IdsOf(objects[..j + 1]) == IdsOf(objects[..j]) + [GetOr(objects[j], "id", Null)]
  {
  }

  /** What is already collected followed by the listing still to come. */
  function Combine(requests: seq<ListRequest>, ids: seq<Value>, l: Listing): Listing {
    Listing(requests + l.requests, ids + l.ids, l.error)
  }

  /** One step of the listing, unfolded after what is already collected. */
  lemma ListingStep(list: ListRequest -> Page, collection: string, limit: nat, consistencyAll: bool,
                    offset: nat, bound: nat, requests: seq<ListRequest>, ids: seq<Value>)
    requires limit > 0
    requires EventuallyStops(list, collection, limit, consistencyAll, bound)
    ensures var req := ListRequest(collection, limit, offset, consistencyAll);
      var page := list(req);
      var whole := Combine(requests, ids, Enumerate(list, collection, limit, consistencyAll, offset, bound));
      if page.status != 200 then whole == Listing(requests + [req], ids, Some((page.status, page.text)))
      else if page.objects == [] then whole == Listing(requests + [req], ids, None)
      else
        offset < bound &&
        whole == Combine(requests + [req], ids + IdsOf(page.objects),
                         Enumerate(list, collection, limit, consistencyAll, offset + limit, bound))
  {
    var req := ListRequest(collection, limit, offset, consistencyAll);
    var page := list(req);
    if page.status == 200 && page.objects != [] {
      var rest := Enumerate(list, collection, limit, consistencyAll, offset + limit, bound);
      assert requests + ([req] + rest.requests) == (requests + [req]) + rest.requests;
      assert ids + (IdsOf(page.objects) + rest.ids) == (ids + IdsOf(page.objects)) + rest.ids;
    } else {
      assert requests + [req] == requests + [req] && ids + [] == ids;
    }
  }

  /** The loop over one page: each object's id is appended. */
  method AppendIds(allUuids: seq<Value>, objectsBatch: seq<Dict>) returns (allUuids': seq<Value>)
    ensures allUuids' == allUuids + IdsOf(objectsBatch)
  {
    allUuids' := allUuids;
    for j := 0 to |objectsBatch|
      invariant allUuids' == allUuids + IdsOf(objectsBatch[..j])
    {
      IdsStep(objectsBatch, j);
      allUuids' := allUuids' + [GetOr(objectsBatch[j], "id", Null)];
    }
    assert objectsBatch[..|objectsBatch|] == objectsBatch;
  }

  /** The `while True` listing loop: request a page, stop on a non-200 or an empty page, append
      its ids, advance the offset by the limit. */
  method ListAllIds(list: ListRequest -> Page, collection: string, limit: nat, consistencyAll: bool, ghost bound: nat)
    returns (requests: seq<ListRequest>, allUuids: seq<Value>, error: Option<(int, string)>)
    requires limit > 0
    requires EventuallyStops(list, collection, limit, consistencyAll, bound)
    ensures Listing(requests, allUuids, error) == Enumerate(list, collection, limit, consistencyAll, 0, bound)
  {
    ghost var whole := Enumerate(list, collection, limit, consistencyAll, 0, bound);
    var offset: nat := 0;
    requests, allUuids, error := [], [], None;
    while true
      invariant Combine(requests, allUuids, Enumerate(list, collection, limit, consistencyAll, offset, bound)) == whole
      decreases if offset < bound then bound - offset else 0
    {
      var req := ListRequest(collection, limit, offset, consistencyAll);
      var resp := list(req);
      ListingStep(list, collection, limit, consistencyAll, offset, bound, requests, allUuids);
      requests := requests + [req];
      if resp.status != 200 {
        error := Some((resp.status, resp.text));
        break;
      }
      var objectsBatch := resp.objects;
      if objectsBatch == [] {
        break;
      }
      allUuids := AppendIds(allUuids, objectsBatch);
      offset := offset + limit;
    }
  }

  function ReadRequests(collection: string, ids: seq<Value>): (rs: seq<ReadRequest>)
    ensures |rs| == |ids|
  {
    seq(|ids|, i requires 0 <= i < |ids| => ReadRequest(collection, ids[i]))
  }

  /** The outcome of reading each id, in order. */
  function Outcomes(read: ReadRequest -> ReadResponse, collection: string, ids: seq<Value>): (os: seq<ReadOutcome>)
    ensures |os| == |ids|
  {
    seq(|ids|, i requires 0 <= i < |ids| => Classify(read(ReadRequest(collection, ids[i]))))
  }

  // ---------------------------------------------------------------------------------------------
  // read_repairs of the cluster operations module

  /** The console version of the sweep: pages of 500 without a consistency level, then one read
      per collected id (its console lines number the ids from 0). It returns what it sent and how
      each read came back. */
  method ReadRepairs(list: ListRequest -> Page, read: ReadRequest -> ReadResponse, collectionName: string, ghost bound: nat)
    returns (listRequests: seq<ListRequest>, allUuids: seq<Value>, readRequests: seq<ReadRequest>, outcomes: seq<ReadOutcome>)
    requires EventuallyStops(list, collectionName, 500, false, bound)
    ensures Listing(listRequests, allUuids, Enumerate(list, collectionName, 500, false, 0, bound).error) ==
      Enumerate(list, collectionName, 500, false, 0, bound)
    ensures readRequests == ReadRequests(collectionName, allUuids)
    ensures outcomes == Outcomes(read, collectionName, allUuids)
  {
    var error;
    listRequests, allUuids, error := ListAllIds(list, collectionName, 500, false, bound);
    readRequests, outcomes := [], [];
    for index := 0 to |allUuids|
      invariant readRequests == ReadRequests(collectionName, allUuids[..index])
      invariant outcomes == Outcomes(read, collectionName, allUuids[..index])
    {
      var req := ReadRequest(collectionName, allUuids[index]);
      var respSingle := read(req);
      var outcome;
      if respSingle.status == 200 {
        outcome := Found;
      } else if respSingle.status == 404 {
        outcome := NotFound;
      } else {
        outcome := Failed(respSingle.status, respSingle.text);
      }
      readRequests := readRequests + [req];
      outcomes := outcomes + [outcome];
    }
    assert allUuids[..|allUuids|] == allUuids;
  }

  /** The console sweep asks for offsets 0, 500, 1000, ... and reads every collected id exactly
      once, in the order collected. */
  lemma ReadRepairsRequests(list: ListRequest -> Page, read: ReadRequest -> ReadResponse, collectionName: string,
                            bound: nat, i: nat)
    requires EventuallyStops(list, collectionName, 500, false, bound)
    requires i < |Enumerate(list, collectionName, 500, false, 0, bound).requests|
    ensures Enumerate(list, collectionName, 500, false, 0, bound).requests[i].offset == 500 * i
    ensures forall j :: 0 <= j < |Enumerate(list, collectionName, 500, false, 0, bound).ids| ==>
      ReadRequests(collectionName, Enumerate(list, collectionName, 500, false, 0, bound).ids)[j].uuid ==
      Enumerate(list, collectionName, 500, false, 0, bound).ids[j]
  {
    EnumerateOffsets(list, collectionName, 500, false, 0, bound, i);
  }
}
