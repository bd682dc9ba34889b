/** The cluster metadata view (get_metadata, in two versions). The metadata endpoint answers with
    an object: general entries plus a "modules" object mapping each module's name to its details. */
module Metadata {
  import opened Basics
  import opened Json

  // ---------------------------------------------------------------------------------------------
  // Current version: metadata from the client, modules split into standard and other ones

  /** What the client's metadata call gave: the decoded object, or the exception's message. */
  datatype MetaFetch = Fetched(metadata: Dict) | FetchFailed(reason: string)

  /** Why the current version answers with an error: the client call raised, or "modules" is not
      an object (its `.items()` raises, and the catch-all handler turns that into the error). */
  datatype MetadataFailure = ClientError(reason: string) | ModulesNotAnObject

  datatype MetadataResult =
    | MetadataError(cause: MetadataFailure)
    | MetadataTables(general: Dict, standardModules: seq<Dict>, otherModules: seq<Dict>)

  /** A module in the standard format: its details carry both "name" and "documentationHref". */
  predicate IsStandard(details: Value) {
    details.Object? && HasKey(details.fields, "name") && HasKey(details.fields, "documentationHref")
  }

  /** The row of a standard module. */
  function StandardRow(name: string, details: Dict): Dict {
    [("Module", Str(name)),
     ("Name", GetOr(details, "name", NA)),
     ("Documentation", GetOr(details, "documentationHref", NA))]
  }

  /** Every detail with None replaced by "N/A". */
  function NaValues(details: Dict): (r: Dict)
    ensures Keys(r) == Keys(details)
  {
    seq(|details|, i requires 0 <= i < |details| => (details[i].0, NaIfNull(details[i].1)))
  }

  /** The row of a module in another format: its name under "Module", then all its details. */
  function OtherRow(name: string, details: Dict): Dict {
    Update([("Module", Str(name))], NaValues(details))
  }

  function StandardRowsOf(m: (string, Value)): seq<Dict> {
    if IsStandard(m.1) then [StandardRow(m.0, m.1.fields)] else []
  }

  function OtherRowsOf(m: (string, Value)): seq<Dict> {
    if m.1.Object? && !IsStandard(m.1) then [OtherRow(m.0, m.1.fields)] else []
  }

  predicate IsObjectModule(m: (string, Value)) {
    m.1.Object?
  }

  function MetadataOf(fetch: MetaFetch): MetadataResult {
    match fetch
    case FetchFailed(reason) => MetadataError(ClientError(reason))
    case Fetched(metadata) =>
      if !ObjectOrAbsent(metadata, "modules") then MetadataError(ModulesNotAnObject)
      else
        var modules := ObjectOr(metadata, "modules");
        MetadataTables(Without(metadata, "modules"), FlatMap(modules, StandardRowsOf), FlatMap(modules, OtherRowsOf))
  }

  /** The general table never shows "modules" and shows every other entry unchanged. */
  lemma GeneralExcludesModules(metadata: Dict)
    requires ObjectOrAbsent(metadata, "modules")
    ensures !HasKey(MetadataOf(Fetched(metadata)).general, "modules")
    ensures forall k :: k != "modules" ==> Get(MetadataOf(Fetched(metadata)).general, k) == Get(metadata, k)
  {
  }

  /** Each module whose details are an object gives exactly one row, standard or other; any
      other module gives none. */
  lemma ModuleLandsOnce(m: (string, Value))
    ensures |StandardRowsOf(m)| + |OtherRowsOf(m)| == if m.1.Object? then 1 else 0
    ensures |StandardRowsOf(m)| == 1 <==> IsStandard(m.1)
  {
  }

  /** Together the two module tables have one row per object-valued module. */
  lemma {:induction false} ModulePartition(modules: Dict)
    ensures |FlatMap(modules, StandardRowsOf)| + |FlatMap(modules, OtherRowsOf)| == |Filter(modules, IsObjectModule)|
  {
    if modules != [] {
      var front, last := modules[..|modules| - 1], modules[|modules| - 1];
      ModulePartition(front);
      ModuleLandsOnce(last);
    }
  }

  /** A standard row belongs to exactly the standard modules, and an other row to exactly the
      object-valued modules that are not standard. */
  lemma ModuleRowsMembers(modules: Dict, row: Dict)
    ensures row in FlatMap(modules, StandardRowsOf) <==>
      exists m :: m in modules && IsStandard(m.1) && row == StandardRow(m.0, m.1.fields)
    ensures row in FlatMap(modules, OtherRowsOf) <==>
      exists m :: m in modules && m.1.Object? && !IsStandard(m.1) && row == OtherRow(m.0, m.1.fields)
  {
    FlatMapMembers(modules, StandardRowsOf, row);
    FlatMapMembers(modules, OtherRowsOf, row);
  }

  /** An other row shows every detail of its module (None as "N/A"); the module name stays under
      "Module" unless a detail of that name overrides it. */
  lemma OtherRowContents(name: string, details: Dict)
    ensures forall k :: HasKey(details, k) ==> Get(OtherRow(name, details), k) == LastGet(NaValues(details), k)
    ensures !HasKey(details, "Module") ==> Get(OtherRow(name, details), "Module") == Some(Str(name))
    ensures forall k :: HasKey(OtherRow(name, details), k) <==> k == "Module" || HasKey(details, k)
  {
    assert Keys([("Module", Str(name))]) == ["Module"];
  }

  /** get_metadata of the current version. */
  method GetMetadata(fetch: MetaFetch) returns (r: MetadataResult)
    ensures r == MetadataOf(fetch)
    ensures r.MetadataError? <==> fetch.FetchFailed? || !ObjectOrAbsent(fetch.metadata, "modules")
  {
    if fetch.FetchFailed? {
      return MetadataError(ClientError(fetch.reason));
    }
    var metadata := fetch.metadata;
    var general := Without(metadata, "modules");
    if !ObjectOrAbsent(metadata, "modules") {
      return MetadataError(ModulesNotAnObject);
    }
    var modules := ObjectOr(metadata, "modules");
    var standardModules: seq<Dict> := [];
    var otherModules: seq<Dict> := [];
    for i := 0 to |modules|
      invariant standardModules == FlatMap(modules[..i], StandardRowsOf)
      invariant otherModules == FlatMap(modules[..i], OtherRowsOf)
    {
      var (moduleName, moduleDetails) := modules[i];
      FlatMapStep(modules, StandardRowsOf, i);
      FlatMapStep(modules, OtherRowsOf, i);
      if moduleDetails.Object? {
        if HasKey(moduleDetails.fields, "name") && HasKey(moduleDetails.fields, "documentationHref") {
          standardModules := standardModules + [StandardRow(moduleName, moduleDetails.fields)];
        } else {
          var otherModule := [("Module", Str(moduleName))];
          otherModule := Update(otherModule, NaValues(moduleDetails.fields));
          otherModules := otherModules + [otherModule];
        }
      }
    }
    assert modules[..|modules|] == modules;
    r := MetadataTables(general, standardModules, otherModules);
  }

  // ---------------------------------------------------------------------------------------------
  // Previous version: metadata over HTTP, one row per module plus each module's extra details

  /** The HTTP request: the decoded body, or the message of the request exception. */
  datatype HttpFetch = Ok(body: Dict) | RequestFailed(reason: string)

  datatype MetadataView =
    | MetadataViewError(reason: string)
    | MetadataView(general: Dict, modules: seq<Dict>, nested: map<string, Dict>)

  /** The module row of the previous version. */
  function ModuleRow(name: string, details: Dict): Dict {
    [("Module Name", Str(name)),
     ("Description", GetOr(details, "name", NA)),
     ("Documentation URL", GetOr(details, "documentationHref", NA))]
  }

  /** A module's details other than "name" and "documentationHref". */
  function Nested(details: Dict): Dict {
    Without(Without(details, "name"), "documentationHref")
  }

  /** The extra details are all the details except "name" and "documentationHref". */
  lemma NestedContents(details: Dict)
    ensures !HasKey(Nested(details), "name") && !HasKey(Nested(details), "documentationHref")
    ensures forall p :: p in Nested(details) <==> p in details && p.0 != "name" && p.0 != "documentationHref"
  {
  }

  function ModuleRows(modules: Dict): (rows: seq<Dict>)
    ensures |rows| == |modules|
  {
    seq(|modules|, i requires 0 <= i < |modules| => ModuleRow(modules[i].0, FieldsOf(modules[i].1)))
  }

  /** The nested table a module contributes: its extra details under its name, when it has any. */
  function NestedEntry(m: (string, Value)): Option<(string, Dict)> {
    var extra := Nested(FieldsOf(m.1));
    if extra != [] then Some((m.0, extra)) else None
  }

  /** The nested tables: for each module with extra details, those details under its name. */
  function NestedTables(modules: Dict): map<string, Dict> {
    CollectMap(modules, NestedEntry)
  }

  /** Where the previous version can run: "modules", if present, is an object of objects (it calls
      `.items()` and `.get` on them outside the request handler, so anything else would raise). */
  predicate ModulesShaped(metadata: Dict) {
    ObjectOrAbsent(metadata, "modules") && forall m :: m in ObjectOr(metadata, "modules") ==> m.1.Object?
  }

  function MetadataViewOf(fetch: HttpFetch): MetadataView {
    match fetch
    case RequestFailed(reason) => MetadataViewError(reason)
    case Ok(metadata) =>
      var modules := ObjectOr(metadata, "modules");
      MetadataView(Without(metadata, "modules"), ModuleRows(modules), NestedTables(modules))
  }

  /** A nested table is recorded for a module name exactly when a module of that name has
      details besides "name" and "documentationHref", and it holds those details. */
  lemma NestedTablesMembers(modules: Dict, name: string)
    ensures name in NestedTables(modules) <==>
      exists i :: 0 <= i < |modules| && modules[i].0 == name && Nested(FieldsOf(modules[i].1)) != []
    ensures name in NestedTables(modules) ==>
      exists i :: 0 <= i < |modules| && modules[i].0 == name && NestedTables(modules)[name] == Nested(FieldsOf(modules[i].1))
  {
    CollectMapMembers(modules, NestedEntry, name);
  }

  lemma ModuleRowsStep(modules: Dict, i: nat)
    requires i < |modules|
    ensures ModuleRows(modules[..i + 1]) == ModuleRows(modules[..i]) + [ModuleRow(modules[i].0, FieldsOf(modules[i].1))]
  {
  }

  /** get_metadata of the previous version. */
  method GetMetadataView(fetch: HttpFetch) returns (r: MetadataView)
    requires fetch.Ok? ==> ModulesShaped(fetch.body)
    ensures r == MetadataViewOf(fetch)
    ensures r.MetadataView? ==> !HasKey(r.general, "modules") && |r.modules| == |ObjectOr(fetch.body, "modules")|
  {
    if fetch.RequestFailed? {
      return MetadataViewError(fetch.reason);
    }
    var metadata := fetch.body;
    var general := Without(metadata, "modules");
    var modules := ObjectOr(metadata, "modules");
    var moduleList: seq<Dict> := [];
    var nestedModuleData: map<string, Dict> := map[];
    for i := 0 to |modules|
      invariant moduleList == ModuleRows(modules[..i])
      invariant nestedModuleData == NestedTables(modules[..i])
    {
      var (moduleName, moduleDetails) := modules[i];
      assert modules[i] in modules;
      var details := moduleDetails.fields;
      ModuleRowsStep(modules, i);
      moduleList := moduleList + [ModuleRow(moduleName, details)];
      var nestedData := Without(Without(details, "name"), "documentationHref");
      CollectMapStep(modules, NestedEntry, i);
      if nestedData != [] {
        nestedModuleData := nestedModuleData[moduleName := nestedData];
      }
    }
    assert modules[..|modules|] == modules;
    r := MetadataView(general, moduleList, nestedModuleData);
  }
}
