/** Reading a collection's objects page by page (fetch_collection_data), with the collection and
    tenant lists the page offers (list_all_collections, get_tenant_names). The client is given as
    functions: each answers a request, or None where the client raises. */
module CollectionData {
  import opened Basics
  import opened Json

  /** The collection, and the tenant when one is chosen. */
  datatype Scope = Scope(collection: string, tenant: Option<string>)

  /** The object query: `limit` objects after skipping `offset`, sorted by "_id" ascending, with
      creation and update times and the vector. */
  datatype Query = Query(scope: Scope, limit: int, offset: int)

  datatype StoredObject = StoredObject(properties: Dict, uuid: Value, vector: Value, creationTime: Value, lastUpdateTime: Value)

  /** The answer: the rows of the page, the total count, the number of pages and the echoed
      paging parameters. */
  datatype PageResult = PageResult(data: seq<Dict>, totalCount: int, totalPages: int, currentPage: int, itemsPerPage: int)

  /** A tenant is named when it is given and not empty (Python truthiness). */
  function TenantScope(collectionName: string, tenantName: Option<string>): (s: Scope)
    ensures s.collection == collectionName
    ensures s.tenant.Some? <==> tenantName.Some? && tenantName.value != ""
  {
    if tenantName.Some? && tenantName.value != "" then Scope(collectionName, tenantName) else Scope(collectionName, None)
  }

  /** Python's floor division `a // b`. Dafny's `/` rounds toward negative infinity only for a
      positive divisor, so a negative one is handled by flipping both signs. */
  function FloorDiv(a: int, b: int): (q: int)
    requires b != 0
    ensures q * b <= a < q * b + b || q * b + b < a <= q * b
  {
    if b > 0 then a / b else (-a) / (-b)
  }

  /** `(page - 1) * items_per_page`. */
  function Offset(page: int, itemsPerPage: int): int {
    (page - 1) * itemsPerPage
  }

  /** `-(-total_count // items_per_page)`. */
  function TotalPages(totalCount: int, itemsPerPage: int): int
    requires itemsPerPage != 0
  {
    -FloorDiv(-totalCount, itemsPerPage)
  }

  /** With positive page sizes the pages follow one another from offset 0. */
  lemma OffsetsTile(page: int, itemsPerPage: int)
    ensures Offset(1, itemsPerPage) == 0
    ensures Offset(page + 1, itemsPerPage) == Offset(page, itemsPerPage) + itemsPerPage
  {
  }

  /** The page count is the ceiling of total / page size: the fewest pages that hold them all. */
  lemma TotalPagesIsCeiling(totalCount: int, itemsPerPage: int)
    requires itemsPerPage > 0
    ensures TotalPages(totalCount, itemsPerPage) * itemsPerPage >= totalCount
    ensures (TotalPages(totalCount, itemsPerPage) - 1) * itemsPerPage < totalCount
    ensures totalCount == 0 ==> TotalPages(totalCount, itemsPerPage) == 0
    ensures totalCount >= 0 ==> TotalPages(totalCount, itemsPerPage) >= 0
  {
    var q := (-totalCount) / itemsPerPage;
    var r := (-totalCount) % itemsPerPage;
    assert -totalCount == q * itemsPerPage + r && 0 <= r < itemsPerPage;
    assert TotalPages(totalCount, itemsPerPage) == -q;
    assert -q * itemsPerPage == totalCount + r;
    assert (-q - 1) * itemsPerPage == totalCount + r - itemsPerPage;
  }

  lemma MulMonotone(a: int, b: int, c: int)
    requires a <= b && c > 0
    ensures a * c <= b * c
  {
  }

  /** Every object position below the total lies on exactly one page from 1 to the page count. */
  lemma PagesCoverObjects(totalCount: int, itemsPerPage: int, i: int)
    requires itemsPerPage > 0 && 0 <= i < totalCount
    ensures var page := i / itemsPerPage + 1;
      1 <= page <= TotalPages(totalCount, itemsPerPage) &&
      Offset(page, itemsPerPage) <= i < Offset(page, itemsPerPage) + itemsPerPage
  {
    var page := i / itemsPerPage + 1;
    TotalPagesIsCeiling(totalCount, itemsPerPage);
    assert i == (page - 1) * itemsPerPage + i % itemsPerPage;
    var t := TotalPages(totalCount, itemsPerPage);
    assert (page - 1) * itemsPerPage <= i < totalCount;
    assert page - 1 < t by {
      if page - 1 >= t {
        MulMonotone(t, page - 1, itemsPerPage);
      }
    }
  }

  /** The label of the "collection" column. */
  function Label(scope: Scope): string {
    if scope.tenant.Some? then scope.collection + " (Tenant: " + scope.tenant.value + ")" else scope.collection
  }

  /** One row: the object's properties, then its uuid, vector and times, the tenant when one is
      named. */
  function RowOf(o: StoredObject, scope: Scope): Dict {
    var row := WithObjectColumns(o);
    if scope.tenant.Some? then Put(row, "tenant", Str(scope.tenant.value)) else row
  }

  function RowMaker(scope: Scope): StoredObject -> Dict {
    o => RowOf(o, scope)
  }

  function Rows(objects: seq<StoredObject>, scope: Scope): (rows: seq<Dict>)
    ensures |rows| == |objects|
    ensures forall i :: 0 <= i < |objects| ==> rows[i] == RowOf(objects[i], scope)
  {
    MapSeq(objects, RowMaker(scope))
  }

  /** `df['collection'] = label`: the same column on every row. */
  function WithCollectionColumn(rows: seq<Dict>, columnLabel: string): (r: seq<Dict>)
    ensures |r| == |rows|
  {
    seq(|rows|, i requires 0 <= i < |rows| => Put(rows[i], "collection", Str(columnLabel)))
  }

  /** The answer given when nothing could be read. */
  function Empty(page: int, itemsPerPage: int): PageResult {
    PageResult([], 0, 0, page, itemsPerPage)
  }

  /** What fetch_collection_data answers. The count is asked first; a raise there, in the
      query, or in the page count (a zero page size) gives the empty answer, and so does an
      empty page. */
  function PageOf(count: Scope -> Option<int>, query: Query -> Option<seq<StoredObject>>,
                  collectionName: string, tenantName: Option<string>, page: int, itemsPerPage: int): PageResult
  {
    var scope := TenantScope(collectionName, tenantName);
    match count(scope)
    case None => Empty(page, itemsPerPage)
    case Some(totalCount) =>
      match query(Query(scope, itemsPerPage, Offset(page, itemsPerPage)))
      case None => Empty(page, itemsPerPage)
      case Some(objects) =>
        if objects == [] || itemsPerPage == 0 then Empty(page, itemsPerPage)
        else PageResult(WithCollectionColumn(Rows(objects, scope), Label(scope)), totalCount,
                        TotalPages(totalCount, itemsPerPage), page, itemsPerPage)
  }

  /** The answer echoes the page and page size; it is empty with zero counts exactly when the
      client raised, the page size is zero, or the page held no object. */
  lemma PageOfShape(count: Scope -> Option<int>, query: Query -> Option<seq<StoredObject>>,
                    collectionName: string, tenantName: Option<string>, page: int, itemsPerPage: int)
    ensures var r := PageOf(count, query, collectionName, tenantName, page, itemsPerPage);
      var scope := TenantScope(collectionName, tenantName);
      var q := Query(scope, itemsPerPage, Offset(page, itemsPerPage));
      r.currentPage == page && r.itemsPerPage == itemsPerPage &&
      (r.data == [] <==> count(scope).None? || query(q).None? || query(q).value == [] || itemsPerPage == 0) &&
      (r.data == [] ==> r.totalCount == 0 && r.totalPages == 0) &&
      (r.data != [] ==> r.totalCount == count(scope).value && r.totalPages == TotalPages(r.totalCount, itemsPerPage))
  {
  }

  /** A non-empty answer has one row per object returned, in order, each carrying the object's
      uuid and the collection label. */
  lemma PageOfRows(count: Scope -> Option<int>, query: Query -> Option<seq<StoredObject>>,
                   collectionName: string, tenantName: Option<string>, page: int, itemsPerPage: int)
    ensures var r := PageOf(count, query, collectionName, tenantName, page, itemsPerPage);
      var scope := TenantScope(collectionName, tenantName);
      var q := Query(scope, itemsPerPage, Offset(page, itemsPerPage));
      r.data != [] ==>
        query(q).Some? && |r.data| == |query(q).value| &&
        forall i :: 0 <= i < |r.data| ==>
          Get(r.data[i], "uuid") == Some(query(q).value[i].uuid) &&
          Get(r.data[i], "collection") == Some(Str(Label(scope)))
  {
    var r := PageOf(count, query, collectionName, tenantName, page, itemsPerPage);
    var scope := TenantScope(collectionName, tenantName);
    var q := Query(scope, itemsPerPage, Offset(page, itemsPerPage));
    if count(scope).Some? && query(q).Some? && query(q).value != [] && itemsPerPage != 0 {
      var objects := query(q).value;
      var rows := Rows(objects, scope);
      assert r.data == WithCollectionColumn(rows, Label(scope));
      forall i | 0 <= i < |r.data|
        ensures Get(r.data[i], "uuid") == Some(objects[i].uuid)
        ensures Get(r.data[i], "collection") == Some(Str(Label(scope)))
      {
        RowOfUuid(objects[i], scope);
        assert |"uuid"| == 4 && |"collection"| == 10;
        assert r.data[i] == Put(rows[i], "collection", Str(Label(scope)));
      }
    }
  }

  /** A row shows every property not shadowed by the added columns. */
  lemma RowOfProperties(o: StoredObject, scope: Scope, k: string)
    requires k != "uuid" && k != "vector" && k != "creation_time" && k != "last_update_time" && k != "tenant"
    ensures Get(RowOf(o, scope), k) == Get(o.properties, k)
  {
  }

  /** A row carries its object's own uuid. */
  lemma RowOfUuid(o: StoredObject, scope: Scope)
    ensures Get(RowOf(o, scope), "uuid") == Some(o.uuid)
  {
    var r1 := Put(o.properties, "uuid", o.uuid);
    var r2 := Put(r1, "vector", o.vector);
    var r3 := Put(r2, "creation_time", o.creationTime);
    var r4 := Put(r3, "last_update_time", o.lastUpdateTime);
    assert |"uuid"| == 4 && |"vector"| == 6 && |"creation_time"| == 13 && |"last_update_time"| == 16 && |"tenant"| == 6;
    PutOther(r1, "vector", o.vector, "uuid");
    PutOther(r2, "creation_time", o.creationTime, "uuid");
    PutOther(r3, "last_update_time", o.lastUpdateTime, "uuid");
    assert WithObjectColumns(o) == r4;
    if scope.tenant.Some? {
      PutOther(r4, "tenant", Str(scope.tenant.value), "uuid");
    }
  }

  /** The columns every row gets after its properties. */
  function WithObjectColumns(o: StoredObject): Dict {
    Put(Put(Put(Put(o.properties, "uuid", o.uuid), "vector", o.vector), "creation_time", o.creationTime),
        "last_update_time", o.lastUpdateTime)
  }

  /** A row names the chosen tenant. */
  lemma RowOfTenant(o: StoredObject, scope: Scope)
    requires scope.tenant.Some?
    ensures Get(RowOf(o, scope), "tenant") == Some(Str(scope.tenant.value))
  {
    assert RowOf(o, scope) == Put(WithObjectColumns(o), "tenant", Str(scope.tenant.value));
  }

  /** Without a tenant, a row's "tenant" is whatever the properties hold under that name. */
  lemma RowOfNoTenant(o: StoredObject, scope: Scope)
    requires scope.tenant.None?
    ensures Get(RowOf(o, scope), "tenant") == Get(o.properties, "tenant")
  {
    var r1 := Put(o.properties, "uuid", o.uuid);
    var r2 := Put(r1, "vector", o.vector);
    var r3 := Put(r2, "creation_time", o.creationTime);
    assert |"uuid"| == 4 && |"creation_time"| == 13 && |"last_update_time"| == 16 && |"tenant"| == 6;
    assert "vector"[0] != "tenant"[0];
    PutOther(o.properties, "uuid", o.uuid, "tenant");
    PutOther(r1, "vector", o.vector, "tenant");
    PutOther(r2, "creation_time", o.creationTime, "tenant");
    PutOther(r3, "last_update_time", o.lastUpdateTime, "tenant");
    assert RowOf(o, scope) == Put(r3, "last_update_time", o.lastUpdateTime);
  }

  /** The loop over the query's objects. */
  method CollectRows(objects: seq<StoredObject>, scope: Scope) returns (collectionData: seq<Dict>)
    ensures collectionData == Rows(objects, scope)
  {
    collectionData := [];
    for i := 0 to |objects|
      invariant collectionData == Rows(objects[..i], scope)
    {
      var item := objects[i];
      var row := item.properties;
      row := Put(row, "uuid", item.uuid);
      row := Put(row, "vector", item.vector);
      row := Put(row, "creation_time", item.creationTime);
      row := Put(row, "last_update_time", item.lastUpdateTime);
      if scope.tenant.Some? {
        row := Put(row, "tenant", Str(scope.tenant.value));
      }
      MapSeqStep(objects, RowMaker(scope), i);
      collectionData := collectionData + [row];
    }
    assert objects[..|objects|] == objects;
  }

  /** fetch_collection_data: the queries it makes and its answer. */
  method FetchCollectionData(count: Scope -> Option<int>, query: Query -> Option<seq<StoredObject>>,
                             collectionName: string, tenantName: Option<string>, page: int, itemsPerPage: int)
    returns (r: PageResult, queries: seq<Query>)
    ensures r == PageOf(count, query, collectionName, tenantName, page, itemsPerPage)
    ensures |queries| <= 1
    ensures queries != [] <==> count(TenantScope(collectionName, tenantName)).Some?
    ensures queries != [] ==> queries[0] == Query(TenantScope(collectionName, tenantName), itemsPerPage, (page - 1) * itemsPerPage)
  {
    queries := [];
    var scope := Scope(collectionName, None);
    if tenantName.Some? && tenantName.value != "" {
      scope := Scope(collectionName, tenantName);
    }
    var totalCount := count(scope);
    if totalCount.None? {
      return Empty(page, itemsPerPage), queries;
    }
    var itemsToSkip := (page - 1) * itemsPerPage;
    var q := Query(scope, itemsPerPage, itemsToSkip);
    queries := [q];
    var queryResult := query(q);
    if queryResult.None? {
      return Empty(page, itemsPerPage), queries;
    }
    var collectionData := CollectRows(queryResult.value, scope);
    if collectionData != [] {
      if itemsPerPage == 0 {
        return Empty(page, itemsPerPage), queries;
      }
      var data := WithCollectionColumn(collectionData, Label(scope));
      r := PageResult(data, totalCount.value, -FloorDiv(-totalCount.value, itemsPerPage), page, itemsPerPage);
    } else {
      r := Empty(page, itemsPerPage);
    }
  }

  // ---------------------------------------------------------------------------------------------
  // The lists offered by the page

  /** What a client call answered: the value, or that it raised. */
  datatype Answer<T> = Answered(value: T) | Raised(message: string)

  /** list_all_collections: the collections, or none when the client raises. */
  function ListAllCollections(answer: Answer<seq<string>>): (names: seq<string>)
    ensures answer.Raised? ==> names == []
    ensures answer.Answered? ==> names == answer.value
  {
    match answer
    case Answered(collections) => collections
    case Raised(_) => []
  }

  /** A tenant as the client lists it. */
  datatype Tenant = Tenant(name: string)

  /** get_tenant_names: the names of the listed tenants in listing order, or none when the client
      raises (for a collection without multi-tenancy, or any other error). */
  function TenantNames(answer: Answer<seq<(string, Tenant)>>): (names: seq<string>)
    ensures answer.Raised? ==> names == []
    ensures answer.Answered? ==> (|names| == |answer.value| &&
      forall i :: 0 <= i < |names| ==> names[i] == answer.value[i].1.name)
  {
    match answer
    case Answered(tenants) => seq(|tenants|, i requires 0 <= i < |tenants| => tenants[i].1.name)
    case Raised(_) => []
  }

  /** A name is offered exactly when some listed tenant carries it. */
  lemma TenantNamesMembers(tenants: seq<(string, Tenant)>, name: string)
    ensures name in TenantNames(Answered(tenants)) <==> exists p :: p in tenants && p.1.name == name
  {
    var names := TenantNames(Answered(tenants));
    if exists p :: p in tenants && p.1.name == name {
      var p :| p in tenants && p.1.name == name;
      var i :| 0 <= i < |tenants| && tenants[i] == p;
      assert names[i] == name;
    }
  }
}
