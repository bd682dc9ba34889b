/** Looking up one object: fetching it by uuid (get_object, get_object_in_collection,
    get_object_in_tenant), flattening it into a one-row table (display_object_as_table, in its
    two versions) and asking every node of the cluster whether it holds it (find_objects_on_nodes,
    find_object_in_collection_on_nodes, find_object_in_tenant_on_nodes). The client and the HTTP
    endpoint are given as functions. */
module ObjectLookup {
  import opened Basics
  import opened Json
  import opened Text

  // ---------------------------------------------------------------------------------------------
  // The node scan

  /** The pods the scan asks, in order: the node names of a twelve-replica StatefulSet. */
  const NodeNames: seq<string> := [
    "weaviate-0", "weaviate-1", "weaviate-2", "weaviate-3",
    "weaviate-4", "weaviate-5", "weaviate-6", "weaviate-7",
    "weaviate-8", "weaviate-9", "weaviate-10", "weaviate-11"
  ]

  function NodeName(i: nat): string {
    "weaviate-" + NatToString(i)
  }

  /** The list names the nodes 0 to 11. */
  lemma NodeNamesNumbered()
    ensures |NodeNames| == 12
    ensures forall i :: 0 <= i < 12 ==> NodeNames[i] == NodeName(i)
  {
    assert NatToString(10) == NatToString(1) + [DigitChar(0)];
    assert NatToString(11) == NatToString(1) + [DigitChar(1)];
  }

  lemma NodeNameInjective(i: nat, j: nat)
    requires NodeName(i) == NodeName(j)
    ensures i == j
  {
    assert NatToString(i) == NodeName(i)[9..] == NatToString(j);
    NatToStringRoundTrip(i);
    NatToStringRoundTrip(j);
  }

  /** No node is asked twice. */
  lemma NodeNamesDistinct()
    ensures NoDuplicates(NodeNames)
  {
    NodeNamesNumbered();
    forall i, j | 0 <= i < j < |NodeNames|
      ensures NodeNames[i] != NodeNames[j]
    {
      if NodeName(i) == NodeName(j) {
        NodeNameInjective(i, j);
      }
    }
  }

  const Found: string := "✔"
  const NotFound: string := "✖"

  /** The cell a node's answer gets: found on 200, not found on 404, "N/A" on 500 (the pod does
      not exist), and "Error <code>" on any other status. */
  function StatusMark(statusCode: int): (mark: string)
    ensures mark == Found <==> statusCode == 200
    ensures mark == NotFound <==> statusCode == 404
    ensures mark == "N/A" <==> statusCode == 500
    ensures statusCode != 200 && statusCode != 404 && statusCode != 500 ==>
      |mark| > 6 && mark[..6] == "Error " && mark[6..] == IntToString(statusCode)
  {
    if statusCode == 200 then Found
    else if statusCode == 404 then NotFound
    else if statusCode == 500 then "N/A"
    else "Error " + IntToString(statusCode)
  }

  /** The mark tells the status apart: different statuses never share a cell. */
  lemma StatusMarkInjective(a: int, b: int)
    requires StatusMark(a) == StatusMark(b)
    ensures a == b
  {
    if a != 200 && a != 404 && a != 500 {
      var m := StatusMark(a);
      assert b != 200 && b != 404 && b != 500;
      assert IntToString(a) == m[6..] == IntToString(b);
      IntToStringInjective(a, b);
    }
  }

  /** GET {endpoint}/v1/objects/{collection}/{uuid} with the node_name parameter, and the
      tenant parameter in the tenant version. */
  datatype NodeRequest = NodeRequest(collection: string, uuid: string, nodeName: string, tenant: Option<string>)

  /** The loop shared by the three node-scan functions: one request per node, in list order,
      each node's mark stored under its name. `status` answers each request with its HTTP
      status code. */
  method ScanNodes(status: NodeRequest -> int, collectionName: string, objectUuid: string, tenant: Option<string>,
                   nodeNames: seq<string>)
    returns (results: Dict, requests: seq<NodeRequest>)
    requires NoDuplicates(nodeNames)
    ensures Keys(results) == nodeNames
    ensures |requests| == |nodeNames|
    ensures forall i :: 0 <= i < |nodeNames| ==>
      requests[i] == NodeRequest(collectionName, objectUuid, nodeNames[i], tenant) &&
      Get(results, nodeNames[i]) == Some(Str(StatusMark(status(requests[i]))))
  {
    results := [];
    requests := [];
    for i := 0 to |nodeNames|
      invariant requests == MapSeq(nodeNames[..i], RequestFor(collectionName, objectUuid, tenant))
      invariant results == MapSeq(requests, CellFor(status))
      invariant Keys(results) == nodeNames[..i]
    {
      var node := nodeNames[i];
      var req := NodeRequest(collectionName, objectUuid, node, tenant);
      MapSeqStep(nodeNames, RequestFor(collectionName, objectUuid, tenant), i);
      var statusCode := status(req);
      var mark := StatusMark(statusCode);
      ScanStep(results, nodeNames, i, Str(mark));
      MapSeqConcat(requests, [req], CellFor(status));
      requests := requests + [req];
      results := Put(results, node, Str(mark));
    }
    assert nodeNames[..|nodeNames|] == nodeNames;
    ScanLookup(results, nodeNames);
  }

  function RequestFor(collectionName: string, objectUuid: string, tenant: Option<string>): string -> NodeRequest {
    node => NodeRequest(collectionName, objectUuid, node, tenant)
  }

  /** A node's column: its name and the mark of its answer. */
  function CellFor(status: NodeRequest -> int): NodeRequest -> (string, Value) {
    (req: NodeRequest) => (req.nodeName, Str(StatusMark(status(req))))
  }

  /** Storing the mark of the next node appends it: no earlier node has its name. */
  lemma ScanStep(results: Dict, nodeNames: seq<string>, i: nat, v: Value)
    requires NoDuplicates(nodeNames) && i < |nodeNames|
    requires Keys(results) == nodeNames[..i]
    ensures Put(results, nodeNames[i], v) == results + [(nodeNames[i], v)]
    ensures Keys(results + [(nodeNames[i], v)]) == nodeNames[..i + 1]
  {
    assert nodeNames[..i + 1] == nodeNames[..i] + [nodeNames[i]];
    assert !HasKey(results, nodeNames[i]) by {
      assert forall j :: 0 <= j < i ==> Keys(results)[j] != nodeNames[i];
    }
    PutAbsent(results, nodeNames[i], v);
  }

  /** Each node's mark is found under its name. */
  lemma ScanLookup(results: Dict, nodeNames: seq<string>)
    requires NoDuplicates(nodeNames)
    requires Keys(results) == nodeNames
    ensures forall i :: 0 <= i < |nodeNames| ==> Get(results, nodeNames[i]) == Some(results[i].1)
  {
    assert forall j :: 0 <= j < |results| ==> results[j].0 == Keys(results)[j] == nodeNames[j];
    forall i | 0 <= i < |nodeNames|
      ensures Get(results, nodeNames[i]) == Some(results[i].1)
    {
      assert results[i].0 == nodeNames[i];
      GetAt(results, i);
    }
  }

  /** find_objects_on_nodes and find_object_in_collection_on_nodes: the scan without a tenant. */
  method FindObjectOnNodes(status: NodeRequest -> int, collectionName: string, objectUuid: string)
    returns (results: Dict, requests: seq<NodeRequest>)
    ensures Keys(results) == NodeNames
    ensures |requests| == |NodeNames|
    ensures forall i :: 0 <= i < |NodeNames| ==>
      requests[i] == NodeRequest(collectionName, objectUuid, NodeNames[i], None) &&
      Get(results, NodeNames[i]) == Some(Str(StatusMark(status(requests[i]))))
  {
    NodeNamesDistinct();
    results, requests := ScanNodes(status, collectionName, objectUuid, None, NodeNames);
  }

  /** find_object_in_tenant_on_nodes: the same scan, every request naming the tenant. */
  method FindObjectInTenantOnNodes(status: NodeRequest -> int, collectionName: string, objectUuid: string, tenant: string)
    returns (results: Dict, requests: seq<NodeRequest>)
    ensures Keys(results) == NodeNames
    ensures |requests| == |NodeNames|
    ensures forall i :: 0 <= i < |NodeNames| ==>
      requests[i] == NodeRequest(collectionName, objectUuid, NodeNames[i], Some(tenant)) &&
      Get(results, NodeNames[i]) == Some(Str(StatusMark(status(requests[i]))))
  {
    NodeNamesDistinct();
    results, requests := ScanNodes(status, collectionName, objectUuid, Some(tenant), NodeNames);
  }

  // ---------------------------------------------------------------------------------------------
  // Fetching an object

  /** A fetched object with the metadata the client returns for it; `uuid` is its rendering. */
  datatype DataObject = DataObject(uuid: string, collection: string, vector: Value, creationTime: Value,
                                   lastUpdateTime: Value, isConsistent: Value, properties: Dict)

  /** fetch_object_by_id on a collection, possibly bound to a tenant, with or without the vector. */
  datatype ObjectQuery = ObjectQuery(collection: string, uuid: string, tenant: Option<string>, includeVector: bool)

  /** get_object: the object the fetch finds, None when it finds nothing. */
  function GetObject(fetch: ObjectQuery -> Option<DataObject>, collectionName: string, uuid: string): (r: Option<DataObject>)
    ensures r.None? <==> fetch(ObjectQuery(collectionName, uuid, None, false)).None?
    ensures r.Some? ==> r == fetch(ObjectQuery(collectionName, uuid, None, false))
  {
    var dataObject := fetch(ObjectQuery(collectionName, uuid, None, false));
    if dataObject.None? then None else dataObject
  }

  /** get_object_in_collection: the fetch asks for the vector too. */
  function GetObjectInCollection(fetch: ObjectQuery -> Option<DataObject>, collectionName: string, uuid: string): (r: Option<DataObject>)
    ensures r.None? <==> fetch(ObjectQuery(collectionName, uuid, None, true)).None?
    ensures r.Some? ==> r == fetch(ObjectQuery(collectionName, uuid, None, true))
  {
    var dataObject := fetch(ObjectQuery(collectionName, uuid, None, true));
    if dataObject.None? then None else dataObject
  }

  /** get_object_in_tenant: the collection bound to the tenant, the vector included. */
  function GetObjectInTenant(fetch: ObjectQuery -> Option<DataObject>, collectionName: string, uuid: string, tenant: string): (r: Option<DataObject>)
    ensures r.None? <==> fetch(ObjectQuery(collectionName, uuid, Some(tenant), true)).None?
    ensures r.Some? ==> r == fetch(ObjectQuery(collectionName, uuid, Some(tenant), true))
  {
    var dataObject := fetch(ObjectQuery(collectionName, uuid, Some(tenant), true));
    if dataObject.None? then None else dataObject
  }

  // ---------------------------------------------------------------------------------------------
  // The one-row table

  /** The fixed columns and the metadata columns of the cluster-view table. */
  function ObjectHead(o: DataObject): Dict {
    [("uuid", Str(o.uuid)), ("collection", Str(o.collection))]
  }

  function ObjectMeta(o: DataObject): Dict {
    [("metadata.creation_time", o.creationTime), ("metadata.last_update_time", o.lastUpdateTime),
     ("metadata.is_consistent", o.isConsistent)]
  }

  const ObjectColumns: seq<string> :=
    ["uuid", "collection", "metadata.creation_time", "metadata.last_update_time", "metadata.is_consistent"]

  /** The fixed and metadata columns of the object-inspector table. */
  function InspectorHead(o: DataObject): Dict {
    [("UUID", Str(o.uuid)), ("Collection", Str(o.collection)), ("Vectors", o.vector)]
  }

  function InspectorMeta(o: DataObject): Dict {
    [("Creation Time", o.creationTime), ("Last Update Time", o.lastUpdateTime)]
  }

  const InspectorColumns: seq<string> := ["UUID", "Collection", "Vectors", "Creation Time", "Last Update Time"]

  /** The row: the fixed columns updated with the metadata, then every property put in order. */
  function Row(head: Dict, meta: Dict, properties: Dict): Dict {
    Update(Update(head, meta), properties)
  }

  /** display_object_as_table of the cluster view: no table for no object. */
  function ObjectTable(dataObject: Option<DataObject>): (table: Option<Dict>)
    ensures table.None? <==> dataObject.None?
  {
    match dataObject
    case None => None
    case Some(o) => Some(Row(ObjectHead(o), ObjectMeta(o), o.properties))
  }

  /** display_object_as_table of the object inspector. */
  function InspectorTable(dataObject: Option<DataObject>): (table: Option<Dict>)
    ensures table.None? <==> dataObject.None?
  {
    match dataObject
    case None => None
    case Some(o) => Some(Row(InspectorHead(o), InspectorMeta(o), o.properties))
  }

  /** With fixed columns whose names are distinct, the row begins with those columns in order,
      holds exactly them and the property keys, shows every property under its name (a property
      named like a fixed column replaces that column's value), and keeps each fixed column no
      property shadows. */
  lemma RowShape(columns: Dict, properties: Dict)
    requires NoDuplicates(Keys(columns))
    ensures var row := Update(columns, properties);
      |Keys(row)| >= |columns| && Keys(row)[..|columns|] == Keys(columns) &&
      (forall k :: HasKey(row, k) <==> HasKey(columns, k) || HasKey(properties, k)) &&
      (forall k :: HasKey(properties, k) ==> Get(row, k) == LastGet(properties, k)) &&
      (forall i :: 0 <= i < |columns| && !HasKey(properties, columns[i].0) ==> Get(row, columns[i].0) == Some(columns[i].1))
  {
    forall i | 0 <= i < |columns|
      ensures Get(columns, columns[i].0) == Some(columns[i].1)
    {
      assert forall j :: 0 <= j < |columns| ==> Keys(columns)[j] == columns[j].0;
      assert forall j :: 0 <= j < i ==> columns[j].0 != columns[i].0;
      GetAt(columns, i);
    }
  }

  lemma ObjectColumnsDistinct()
    ensures NoDuplicates(ObjectColumns)
  {
    assert |ObjectColumns[0]| == 4 && |ObjectColumns[1]| == 10 && |ObjectColumns[2]| == 22 &&
           |ObjectColumns[3]| == 25 && |ObjectColumns[4]| == 22;
    assert ObjectColumns[2][9] != ObjectColumns[4][9];
  }

  lemma InspectorColumnsDistinct()
    ensures NoDuplicates(InspectorColumns)
  {
    assert |InspectorColumns[0]| == 4 && |InspectorColumns[1]| == 10 && |InspectorColumns[2]| == 7 &&
           |InspectorColumns[3]| == 13 && |InspectorColumns[4]| == 16;
  }

  /** The metadata update appends the metadata columns after the fixed ones. */
  lemma ObjectColumnsFresh(o: DataObject)
    ensures Update(ObjectHead(o), ObjectMeta(o)) == ObjectHead(o) + ObjectMeta(o)
    ensures Keys(ObjectHead(o) + ObjectMeta(o)) == ObjectColumns
  {
    var columns := ObjectHead(o) + ObjectMeta(o);
    assert Keys(columns) == ObjectColumns by {
      assert |Keys(columns)| == 5;
      forall i | 0 <= i < 5
        ensures Keys(columns)[i] == ObjectColumns[i]
      {
      }
    }
    ObjectColumnsDistinct();
    UpdateAppends(ObjectHead(o), ObjectMeta(o));
  }

  lemma InspectorColumnsFresh(o: DataObject)
    ensures Update(InspectorHead(o), InspectorMeta(o)) == InspectorHead(o) + InspectorMeta(o)
    ensures Keys(InspectorHead(o) + InspectorMeta(o)) == InspectorColumns
  {
    var columns := InspectorHead(o) + InspectorMeta(o);
    assert Keys(columns) == InspectorColumns by {
      assert |Keys(columns)| == 5;
      forall i | 0 <= i < 5
        ensures Keys(columns)[i] == InspectorColumns[i]
      {
      }
    }
    InspectorColumnsDistinct();
    UpdateAppends(InspectorHead(o), InspectorMeta(o));
  }

  /** The cluster-view row: uuid, collection and the three metadata columns first, then the
      properties, which win over a column of the same name; a column no property shadows keeps
      the object's own value. */
  lemma ObjectRowShape(o: DataObject)
    ensures var row, cells := ObjectTable(Some(o)).value, ObjectHead(o) + ObjectMeta(o);
      |Keys(row)| >= 5 && Keys(row)[..5] == ObjectColumns &&
      (forall k :: HasKey(row, k) <==> k in ObjectColumns || HasKey(o.properties, k)) &&
      (forall k :: HasKey(o.properties, k) ==> Get(row, k) == LastGet(o.properties, k)) &&
      (forall i :: 0 <= i < 5 && !HasKey(o.properties, ObjectColumns[i]) ==> Get(row, ObjectColumns[i]) == Some(cells[i].1))
  {
    var columns := ObjectHead(o) + ObjectMeta(o);
    ObjectColumnsFresh(o);
    ObjectColumnsDistinct();
    assert ObjectTable(Some(o)).value == Update(columns, o.properties);
    RowShape(columns, o.properties);
  }

  /** The inspector row: UUID, Collection, Vectors and the two time columns first, then the
      properties, which win over a column of the same name; a column no property shadows keeps
      the object's own value. */
  lemma InspectorRowShape(o: DataObject)
    ensures var row, cells := InspectorTable(Some(o)).value, InspectorHead(o) + InspectorMeta(o);
      |Keys(row)| >= 5 && Keys(row)[..5] == InspectorColumns &&
      (forall k :: HasKey(row, k) <==> k in InspectorColumns || HasKey(o.properties, k)) &&
      (forall k :: HasKey(o.properties, k) ==> Get(row, k) == LastGet(o.properties, k)) &&
      (forall i :: 0 <= i < 5 && !HasKey(o.properties, InspectorColumns[i]) ==> Get(row, InspectorColumns[i]) == Some(cells[i].1))
  {
    var columns := InspectorHead(o) + InspectorMeta(o);
    InspectorColumnsFresh(o);
    InspectorColumnsDistinct();
    assert InspectorTable(Some(o)).value == Update(columns, o.properties);
    RowShape(columns, o.properties);
  }

  /** Nothing found, nothing shown: a uuid the fetch does not find gives no table in either
      version. */
  lemma MissingObjectNoTable(fetch: ObjectQuery -> Option<DataObject>, collectionName: string, uuid: string, tenant: string)
    ensures fetch(ObjectQuery(collectionName, uuid, None, false)).None? ==>
      ObjectTable(GetObject(fetch, collectionName, uuid)).None?
    ensures fetch(ObjectQuery(collectionName, uuid, None, true)).None? ==>
      InspectorTable(GetObjectInCollection(fetch, collectionName, uuid)).None?
    ensures fetch(ObjectQuery(collectionName, uuid, Some(tenant), true)).None? ==>
      InspectorTable(GetObjectInTenant(fetch, collectionName, uuid, tenant)).None?
  {
  }

  /** The properties loop: every property put into the row, in order. */
  method PutProperties(row: Dict, properties: Dict) returns (flattened: Dict)
    ensures flattened == Update(row, properties)
  {
    flattened := row;
    for i := 0 to |properties|
      invariant flattened == Update(row, properties[..i])
    {
      var (key, value) := properties[i];
      UpdateStep(row, properties, i);
      flattened := Put(flattened, key, value);
    }
    assert properties[..|properties|] == properties;
  }

  /** display_object_as_table of the cluster view. */
  method DisplayObjectAsTable(dataObject: Option<DataObject>) returns (table: Option<Dict>)
    ensures table == ObjectTable(dataObject)
  {
    if dataObject.None? {
      return None;
    }
    var o := dataObject.value;
    var metaFields := [("metadata.creation_time", o.creationTime), ("metadata.last_update_time", o.lastUpdateTime),
                       ("metadata.is_consistent", o.isConsistent)];
    var flattenedData := [("uuid", Str(o.uuid)), ("collection", Str(o.collection))];
    flattenedData := Update(flattenedData, metaFields);
    if o.properties != [] {
      flattenedData := PutProperties(flattenedData, o.properties);
    }
    return Some(flattenedData);
  }

  /** display_object_as_table of the object inspector. */
  method DisplayInspectorTable(dataObject: Option<DataObject>) returns (table: Option<Dict>)
    ensures table == InspectorTable(dataObject)
  {
    if dataObject.None? {
      return None;
    }
    var o := dataObject.value;
    var metadataFields := [("Creation Time", o.creationTime), ("Last Update Time", o.lastUpdateTime)];
    var additionalData := [("UUID", Str(o.uuid)), ("Collection", Str(o.collection)), ("Vectors", o.vector)];
    additionalData := Update(additionalData, metadataFields);
    if o.properties != [] {
      additionalData := PutProperties(additionalData, o.properties);
    }
    return Some(additionalData);
  }
}
