/** The multi-tenancy filter over a schema (get_multitenancy_collections): the collections whose
    multiTenancyConfig is set and enabled, in schema order. */
module Multitenancy {
  import opened Basics
  import opened Json

  /** One entry of the result: the class name (or 'Unknown Class') and its multiTenancyConfig. */
  datatype MtCollection = MtCollection(collectionName: Value, multiTenancyConfig: Value)

  const UnknownClass: Value := Str("Unknown Class")

  /** `schema.get('classes', [])`. */
  function Classes(schema: Dict): (cs: seq<Value>)
    ensures !HasKey(schema, "classes") ==> cs == []
  {
    match Get(schema, "classes")
    case Some(Array(items)) => items
    case _ => []
  }

  /** Where the filter runs without raising: "classes" is absent or a list of objects, and each
      multiTenancyConfig that is truthy is an object (`.get('enabled', False)` is called on it). */
  predicate SchemaShaped(schema: Dict) {
    (Get(schema, "classes").None? || Get(schema, "classes").value.Array?) &&
    forall c :: c in Classes(schema) ==> (c.Object? &&
      (Truthy(GetOr(c.fields, "multiTenancyConfig", Null)) ==> GetOr(c.fields, "multiTenancyConfig", Null).Object?))
  }

  /** The class's multiTenancyConfig is present and truthy, and its "enabled" is truthy. */
  predicate Enabled(c: Value) {
    var config := GetOr(FieldsOf(c), "multiTenancyConfig", Null);
    Truthy(config) && Truthy(GetOr(FieldsOf(config), "enabled", Bool(false)))
  }

  function Entry(c: Value): MtCollection {
    MtCollection(GetOr(FieldsOf(c), "class", UnknownClass), GetOr(FieldsOf(c), "multiTenancyConfig", Null))
  }

  /** The entries of the enabled classes, in order. */
  function EnabledEntries(classes: seq<Value>): seq<MtCollection> {
    Select(classes, Enabled, Entry)
  }

  /** The positions of the enabled classes, in increasing order. */
  function EnabledIndices(classes: seq<Value>): seq<nat> {
    Positions(classes, Enabled)
  }

  /** The result picks out exactly the enabled classes, keeps their schema order, and each entry
      is made from its own class. */
  lemma EnabledEntriesSelect(classes: seq<Value>)
    ensures var idx, r := EnabledIndices(classes), EnabledEntries(classes);
      |idx| == |r| &&
      (forall j :: 0 <= j < |idx| ==> idx[j] < |classes| && r[j] == Entry(classes[idx[j]])) &&
      (forall j, j' :: 0 <= j < j' < |idx| ==> idx[j] < idx[j']) &&
      (forall i :: 0 <= i < |classes| ==> (Enabled(classes[i]) <==> i in idx))
  {
    SelectPositions(classes, Enabled, Entry);
    PositionsExact(classes, Enabled);
  }

  /** An entry is in the result exactly when some enabled class gives it. */
  lemma EnabledEntriesMembers(classes: seq<Value>, e: MtCollection)
    ensures e in EnabledEntries(classes) <==> exists i :: 0 <= i < |classes| && Enabled(classes[i]) && e == Entry(classes[i])
  {
    EnabledEntriesSelect(classes);
    var idx, r := EnabledIndices(classes), EnabledEntries(classes);
    if e in r {
      var j :| 0 <= j < |r| && r[j] == e;
      assert idx[j] in idx;
    }
    if exists i :: 0 <= i < |classes| && Enabled(classes[i]) && e == Entry(classes[i]) {
      var i :| 0 <= i < |classes| && Enabled(classes[i]) && e == Entry(classes[i]);
      var j :| 0 <= j < |idx| && idx[j] == i;
      assert r[j] == e;
    }
  }

  /** get_multitenancy_collections. */
  method GetMultitenancyCollections(schema: Dict) returns (enabledCollections: seq<MtCollection>)
    requires SchemaShaped(schema)
    ensures enabledCollections == EnabledEntries(Classes(schema))
    ensures |enabledCollections| <= |Classes(schema)|
  {
    var classes := Classes(schema);
    enabledCollections := [];
    for i := 0 to |classes|
      invariant enabledCollections == EnabledEntries(classes[..i])
      invariant |enabledCollections| <= i
    {
      var collection := classes[i];
      assert collection in classes;
      var collectionName := GetOr(collection.fields, "class", UnknownClass);
      var multiTenancyConfig := GetOr(collection.fields, "multiTenancyConfig", Null);
      SelectStep(classes, Enabled, Entry, i);
      if Truthy(multiTenancyConfig) && Truthy(GetOr(multiTenancyConfig.fields, "enabled", Bool(false))) {
        enabledCollections := enabledCollections + [MtCollection(collectionName, multiTenancyConfig)];
      }
    }
    assert classes[..|classes|] == classes;
  }
}
