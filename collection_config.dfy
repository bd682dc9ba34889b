/** A collection's configuration as the dashboard shows it: the class is looked up in the schema
    (fetch_collection_config), then projected onto display sections (process_collection_config,
    in a generic version and in an earlier version with fixed sections). */
module CollectionConfig {
  import opened Basics
  import opened Json
  import opened Text

  const EmptyObject: Value := Object([])

  const NoConfiguration: string := "No configuration available"

  /** The answer of the schema endpoint. */
  datatype SchemaResponse = SchemaResponse(status: int, text: string, body: Value)

  // ---------------------------------------------------------------------------------------------
  // The schema search

  /** Where the search runs without raising on a 200 answer: the body is an object whose
      "classes", if present, is a list of objects. */
  predicate SchemaBodyShaped(body: Value) {
    body.Object? &&
    match Get(body.fields, "classes")
    case None => true
    case Some(Array(items)) => forall c :: c in items ==> c.Object?
    case Some(_) => false
  }

  /** `response.json().get("classes", [])`. */
  function SchemaClasses(body: Value): seq<Value> {
    match Get(FieldsOf(body), "classes")
    case Some(Array(items)) => items
    case _ => []
  }

  /** `cls.get("class") == collection_name`. */
  predicate NamesClass(cls: Value, name: string) {
    Get(FieldsOf(cls), "class") == Some(Str(name))
  }

  /** The position of the first class of the given name. */
  function FindClass(classes: seq<Value>, name: string): (k: Option<nat>)
    ensures k.Some? ==> (k.value < |classes| && NamesClass(classes[k.value], name) &&
      forall j :: 0 <= j < k.value ==> !NamesClass(classes[j], name))
    ensures k.None? ==> forall j :: 0 <= j < |classes| ==> !NamesClass(classes[j], name)
  {
    if classes == [] then None
    else if NamesClass(classes[0], name) then Some(0)
    else
      var rest := FindClass(classes[1..], name);
      assert forall j :: 1 <= j < |classes| ==> classes[1..][j - 1] == classes[j];
      if rest.None? then None else Some(rest.value + 1)
  }

  /** The first class of the name is the one found. */
  lemma FindClassFirst(classes: seq<Value>, name: string, k: nat)
    requires k < |classes| && NamesClass(classes[k], name)
    requires forall j :: 0 <= j < k ==> !NamesClass(classes[j], name)
    ensures FindClass(classes, name) == Some(k)
  {
    var found := FindClass(classes, name);
    assert found.Some? ==> !(found.value < k) && !(k < found.value);
  }

  function FetchError(status: int, text: string): Dict {
    [("error", Str("Error fetching schema: " + IntToString(status) + " - " + text))]
  }

  /** What fetch_collection_config returns for this answer. */
  function FetchedConfig(response: SchemaResponse, name: string): Dict {
    if response.status != 200 then FetchError(response.status, response.text)
    else
      var classes := SchemaClasses(response.body);
      match FindClass(classes, name)
      case Some(k) => FieldsOf(classes[k])
      case None => FetchError(response.status, response.text)
  }

  /** The config is the first class of that name on a 200 answer; otherwise (another status, or
      no class of that name) it is the error entry carrying the status and the answer's text. */
  lemma FetchedConfigCases(response: SchemaResponse, name: string, k: nat)
    ensures response.status != 200 ==> FetchedConfig(response, name) == FetchError(response.status, response.text)
    ensures (response.status == 200 &&
      forall j :: 0 <= j < |SchemaClasses(response.body)| ==> !NamesClass(SchemaClasses(response.body)[j], name)) ==>
      FetchedConfig(response, name) == FetchError(response.status, response.text)
    ensures (response.status == 200 && k < |SchemaClasses(response.body)| && NamesClass(SchemaClasses(response.body)[k], name) &&
      forall j :: 0 <= j < k ==> !NamesClass(SchemaClasses(response.body)[j], name)) ==>
      FetchedConfig(response, name) == FieldsOf(SchemaClasses(response.body)[k])
  {
    var classes := SchemaClasses(response.body);
    if k < |classes| && NamesClass(classes[k], name) && forall j :: 0 <= j < k ==> !NamesClass(classes[j], name) {
      FindClassFirst(classes, name, k);
    }
  }

  /** fetch_collection_config, the request made by the caller: the classes are searched in order
      and the first one of the given name is returned. */
  method FetchCollectionConfig(response: SchemaResponse, collectionName: string) returns (config: Dict)
    requires response.status == 200 ==> SchemaBodyShaped(response.body)
    ensures config == FetchedConfig(response, collectionName)
  {
    if response.status == 200 {
      var schema := SchemaClasses(response.body);
      for i := 0 to |schema|
        invariant forall j :: 0 <= j < i ==> !NamesClass(schema[j], collectionName)
      {
        var cls := schema[i];
        if Get(FieldsOf(cls), "class") == Some(Str(collectionName)) {
          FindClassFirst(schema, collectionName, i);
          return FieldsOf(cls);
        }
      }
    }
    config := FetchError(response.status, response.text);
  }

  // ---------------------------------------------------------------------------------------------
  // The generic projection

  /** Where the projection runs without raising: "moduleConfig" is absent or an object, and
      "vectorConfig", if present, is an object of objects. */
  predicate ConfigShaped(config: Dict) {
    ObjectOrAbsent(config, "moduleConfig") &&
    ObjectOrAbsent(config, "vectorConfig") &&
    forall p :: p in ObjectOr(config, "vectorConfig") ==> p.1.Object?
  }

  /** The four sections shown for every collection. */
  function BaseSections(config: Dict): Dict {
    [("Inverted Index Config", GetOr(config, "invertedIndexConfig", EmptyObject)),
     ("Multi-Tenancy Config", GetOr(config, "multiTenancyConfig", EmptyObject)),
     ("Replication Config", GetOr(config, "replicationConfig", EmptyObject)),
     ("Sharding Config", GetOr(config, "shardingConfig", EmptyObject))]
  }

  /** The three fields shown for one named vector. */
  const VectorFields: seq<string> := ["Vector Index Type", "Vector Index Config", "Vectorizer"]

  function VectorInfo(details: Dict): (info: Dict)
    ensures Keys(info) == VectorFields
  {
    [("Vector Index Type", GetOr(details, "vectorIndexType", Null)),
     ("Vector Index Config", GetOr(details, "vectorIndexConfig", EmptyObject)),
     ("Vectorizer", GetOr(details, "vectorizer", EmptyObject))]
  }

  /** The named vectors, each under its name. */
  function NamedVectors(vectorConfig: Dict): Dict {
    if vectorConfig == [] then []
    else
      var last := vectorConfig[|vectorConfig| - 1];
      Put(NamedVectors(vectorConfig[..|vectorConfig| - 1]), last.0, Object(VectorInfo(FieldsOf(last.1))))
  }

  predicate HasSingleVector(config: Dict) {
    HasKey(config, "vectorIndexConfig") && HasKey(config, "vectorizer")
  }

  /** The sections with the single-vector ones added when the config has them. */
  function WithSingleVector(config: Dict, sections: Dict): Dict {
    if HasSingleVector(config) then
      Put(Put(sections, "vectorIndexType", GetOr(config, "vectorIndexType", EmptyObject)),
          "Vector Index Config", GetOr(config, "vectorIndexConfig", EmptyObject))
    else sections
  }

  /** The sections with the named vectors added when the config has them. */
  function WithNamedVectors(config: Dict, sections: Dict): Dict {
    if HasKey(config, "vectorConfig") then
      Put(sections, "Named Vectors Config", Object(NamedVectors(ObjectOr(config, "vectorConfig"))))
    else sections
  }

  /** What process_collection_config shows for a config. */
  function Sections(config: Dict): Dict {
    if config == [] then [("error", Str(NoConfiguration))]
    else WithNamedVectors(config, WithSingleVector(config, Update(BaseSections(config), ObjectOr(config, "moduleConfig"))))
  }

  /** The named-vector table has an entry for exactly the named vectors. */
  lemma {:induction false} NamedVectorsKeys(vectorConfig: Dict, name: string)
    ensures HasKey(NamedVectors(vectorConfig), name) <==> HasKey(vectorConfig, name)
  {
    if vectorConfig != [] {
      var front, last := vectorConfig[..|vectorConfig| - 1], vectorConfig[|vectorConfig| - 1];
      NamedVectorsKeys(front, name);
      HasKeyLast(vectorConfig, name);
      PutHasKey(NamedVectors(front), last.0, Object(VectorInfo(FieldsOf(last.1))), name);
    }
  }

  /** Each entry of the named-vector table shows exactly the three vector fields. */
  lemma {:induction false} NamedVectorsEntries(vectorConfig: Dict, name: string)
    ensures Get(NamedVectors(vectorConfig), name).Some? ==>
      Get(NamedVectors(vectorConfig), name).value.Object? &&
      Keys(Get(NamedVectors(vectorConfig), name).value.fields) == VectorFields
  {
    if vectorConfig != [] {
      NamedVectorsEntries(vectorConfig[..|vectorConfig| - 1], name);
    }
  }

  /** The sections before the named vectors and single vector are added. */
  function ModuleSectionsOf(config: Dict): Dict {
    Update(BaseSections(config), ObjectOr(config, "moduleConfig"))
  }

  const BaseSectionNames: seq<string> := ["Inverted Index Config", "Multi-Tenancy Config", "Replication Config", "Sharding Config"]

  /** Adding the vector sections keeps the sections before them, in place. */
  lemma VectorSectionsKeepPrefix(config: Dict, sections: Dict)
    ensures |Keys(WithNamedVectors(config, WithSingleVector(config, sections)))| >= |Keys(sections)|
    ensures Keys(WithNamedVectors(config, WithSingleVector(config, sections)))[..|Keys(sections)|] == Keys(sections)
  {
    var s1 := WithSingleVector(config, sections);
    var s2 := WithNamedVectors(config, s1);
    if HasSingleVector(config) {
      var withType := Put(sections, "vectorIndexType", GetOr(config, "vectorIndexType", EmptyObject));
      PutExtends(sections, "vectorIndexType", GetOr(config, "vectorIndexType", EmptyObject));
      PutExtends(withType, "Vector Index Config", GetOr(config, "vectorIndexConfig", EmptyObject));
      ExtendsTransitive(sections, withType, s1);
    }
    if HasKey(config, "vectorConfig") {
      PutExtends(s1, "Named Vectors Config", Object(NamedVectors(ObjectOr(config, "vectorConfig"))));
    }
    ExtendsTransitive(sections, s1, s2);
  }

  /** A falsy config gives the error entry alone; any other config gives at least the four base
      sections. */
  lemma EmptyConfigIsError(config: Dict)
    ensures config == [] ==> Sections(config) == [("error", Str(NoConfiguration))]
    ensures config != [] ==> |Sections(config)| >= 4
  {
    if config != [] {
      assert |Keys(BaseSections(config))| == 4;
      VectorSectionsKeepPrefix(config, ModuleSectionsOf(config));
    }
  }

  /** The four base sections come first, in their order, followed by the module sections. */
  lemma BaseSectionsFirst(config: Dict)
    requires config != []
    ensures |Keys(Sections(config))| >= 4
    ensures Keys(Sections(config))[..4] == BaseSectionNames
  {
    var withModules := ModuleSectionsOf(config);
    assert Keys(BaseSections(config)) == BaseSectionNames;
    assert Keys(withModules)[..4] == BaseSectionNames;
    VectorSectionsKeepPrefix(config, withModules);
    assert Keys(Sections(config))[..|Keys(withModules)|][..4] == Keys(Sections(config))[..4];
  }

  /** A section no vector section can replace keeps what the module sections gave it. */
  lemma NonVectorSection(config: Dict, name: string)
    requires config != []
    requires name != "vectorIndexType" && name != "Vector Index Config" && name != "Named Vectors Config"
    ensures Get(Sections(config), name) == Get(ModuleSectionsOf(config), name)
  {
  }

  /** A base section holds the config's entry, {} when absent, unless a module of the same name
      replaces it. */
  lemma BaseSectionValue(config: Dict, i: nat)
    requires config != [] && i < 4 && !HasKey(ObjectOr(config, "moduleConfig"), BaseSectionNames[i])
    ensures Get(Sections(config), BaseSectionNames[i]) == Some(BaseSections(config)[i].1)
  {
    var base := BaseSections(config);
    assert base[i].0 == BaseSectionNames[i];
    assert forall j :: 0 <= j < i ==> |base[j].0| != |base[i].0|;
    GetAt(base, i);
    assert |BaseSectionNames[i]| in {21, 20, 18, 15};
    NonVectorSection(config, BaseSectionNames[i]);
  }

  /** Each module's configuration is a section under the module's name (unless a later section of
      the same name replaces it). */
  lemma ModuleSections(config: Dict, name: string)
    requires config != [] && HasKey(ObjectOr(config, "moduleConfig"), name)
    requires !(HasSingleVector(config) && name in ["vectorIndexType", "Vector Index Config"])
    requires !(HasKey(config, "vectorConfig") && name == "Named Vectors Config")
    ensures Get(Sections(config), name) == LastGet(ObjectOr(config, "moduleConfig"), name)
  {
  }

  /** With both "vectorIndexConfig" and "vectorizer" the config gets the two single-vector
      sections, holding its "vectorIndexType" and "vectorIndexConfig" ({} when absent). */
  lemma SingleVectorSections(config: Dict)
    requires config != [] && HasSingleVector(config)
    ensures Get(Sections(config), "vectorIndexType") == Some(GetOr(config, "vectorIndexType", EmptyObject))
    ensures Get(Sections(config), "Vector Index Config") == Some(GetOr(config, "vectorIndexConfig", EmptyObject))
  {
    var m := ModuleSectionsOf(config);
    var s := WithSingleVector(config, m);
    NonVectorSectionsKeep(config, m);
    var withType := Put(m, "vectorIndexType", GetOr(config, "vectorIndexType", EmptyObject));
    assert s == Put(withType, "Vector Index Config", GetOr(config, "vectorIndexConfig", EmptyObject));
    assert |"vectorIndexType"| == 15 && |"Vector Index Config"| == 19;
    assert Get(s, "vectorIndexType") == Get(withType, "vectorIndexType");
  }

  /** Without them there is no "vectorIndexType" section (unless a module carries that name). */
  lemma NoSingleVectorSection(config: Dict)
    requires config != [] && !HasSingleVector(config)
    requires !HasKey(ObjectOr(config, "moduleConfig"), "vectorIndexType")
    ensures !HasKey(Sections(config), "vectorIndexType")
  {
    var m := ModuleSectionsOf(config);
    NonVectorSectionsKeep(config, m);
    BaseSectionsLack(config, "vectorIndexType");
    assert !HasKey(m, "vectorIndexType");
    assert Get(Sections(config), "vectorIndexType") == Get(m, "vectorIndexType");
  }

  /** A name of a different length from every base section name is not a base section. */
  lemma BaseSectionsLack(config: Dict, name: string)
    requires |name| !in {21, 20, 18, 15} || name[0] !in {'I', 'M', 'R', 'S'}
    ensures !HasKey(BaseSections(config), name)
  {
    var names := BaseSectionNames;
    assert Keys(BaseSections(config)) == names;
    assert |names[0]| == 21 && |names[1]| == 20 && |names[2]| == 18 && |names[3]| == 15;
    assert names[0][0] == 'I' && names[1][0] == 'M' && names[2][0] == 'R' && names[3][0] == 'S';
    forall i | 0 <= i < 4 ensures names[i] != name {
      if |name| == |names[i]| && |name| > 0 {
        assert name[0] != names[i][0];
      }
    }
  }

  /** The named vectors leave the single-vector sections as they are. */
  lemma NonVectorSectionsKeep(config: Dict, sections: Dict)
    ensures Get(WithNamedVectors(config, WithSingleVector(config, sections)), "vectorIndexType") ==
      Get(WithSingleVector(config, sections), "vectorIndexType")
    ensures Get(WithNamedVectors(config, WithSingleVector(config, sections)), "Vector Index Config") ==
      Get(WithSingleVector(config, sections), "Vector Index Config")
  {
    assert |"vectorIndexType"| != |"Named Vectors Config"|;
    assert |"Vector Index Config"| != |"Named Vectors Config"|;
  }

  /** With "vectorConfig" the config gets the named-vector section, with one entry per named
      vector. */
  lemma NamedVectorsSection(config: Dict, name: string)
    requires config != [] && HasKey(config, "vectorConfig")
    ensures Get(Sections(config), "Named Vectors Config") == Some(Object(NamedVectors(ObjectOr(config, "vectorConfig"))))
    ensures HasKey(NamedVectors(ObjectOr(config, "vectorConfig")), name) <==> HasKey(ObjectOr(config, "vectorConfig"), name)
  {
    NamedVectorsKeys(ObjectOr(config, "vectorConfig"), name);
  }

  /** Without it there is no named-vector section (unless a module carries that name). */
  lemma NoNamedVectorsSection(config: Dict)
    requires config != [] && !HasKey(config, "vectorConfig")
    requires !HasKey(ObjectOr(config, "moduleConfig"), "Named Vectors Config")
    ensures !HasKey(Sections(config), "Named Vectors Config")
  {
    var m := ModuleSectionsOf(config);
    var s := WithSingleVector(config, m);
    assert "Named Vectors Config"[0] == 'N';
    BaseSectionsLack(config, "Named Vectors Config");
    assert !HasKey(m, "Named Vectors Config");
    assert |"Named Vectors Config"| == 20 && |"vectorIndexType"| == 15 && |"Vector Index Config"| == 19;
    assert Get(s, "Named Vectors Config") == Get(m, "Named Vectors Config");
  }

  lemma NamedVectorsStep(vectorConfig: Dict, i: nat)
    requires i < |vectorConfig|
    ensures NamedVectors(vectorConfig[..i + 1]) ==
      Put(NamedVectors(vectorConfig[..i]), vectorConfig[i].0, Object(VectorInfo(FieldsOf(vectorConfig[i].1))))
  {
    assert vectorConfig[..i + 1][..i] == vectorConfig[..i];
  }

  /** process_collection_config of the generic version. */
  method ProcessCollectionConfig(config: Dict) returns (keysToDisplay: Dict)
    requires ConfigShaped(config)
    ensures keysToDisplay == Sections(config)
  {
    if config == [] {
      return [("error", Str(NoConfiguration))];
    }
    keysToDisplay := BaseSections(config);
    var moduleConfigs := ObjectOr(config, "moduleConfig");
    for i := 0 to |moduleConfigs|
      invariant keysToDisplay == Update(BaseSections(config), moduleConfigs[..i])
    {
      var (modName, modConf) := moduleConfigs[i];
      UpdateStep(BaseSections(config), moduleConfigs, i);
      keysToDisplay := Put(keysToDisplay, modName, modConf);
    }
    assert moduleConfigs[..|moduleConfigs|] == moduleConfigs;
    if HasKey(config, "vectorIndexConfig") && HasKey(config, "vectorizer") {
      keysToDisplay := Put(keysToDisplay, "vectorIndexType", GetOr(config, "vectorIndexType", EmptyObject));
      keysToDisplay := Put(keysToDisplay, "Vector Index Config", GetOr(config, "vectorIndexConfig", EmptyObject));
    }
    if HasKey(config, "vectorConfig") {
      var namedVectorsInfo := CollectNamedVectors(ObjectOr(config, "vectorConfig"));
      keysToDisplay := Put(keysToDisplay, "Named Vectors Config", Object(namedVectorsInfo));
    }
  }

  /** The loop over "vectorConfig" of process_collection_config. */
  method CollectNamedVectors(vectorConfig: Dict) returns (namedVectorsInfo: Dict)
    requires forall p :: p in vectorConfig ==> p.1.Object?
    ensures namedVectorsInfo == NamedVectors(vectorConfig)
  {
    namedVectorsInfo := [];
    for i := 0 to |vectorConfig|
      invariant namedVectorsInfo == NamedVectors(vectorConfig[..i])
    {
      var (vectorName, vectorDetails) := vectorConfig[i];
      assert vectorConfig[i] in vectorConfig;
      var info := [("Vector Index Type", GetOr(vectorDetails.fields, "vectorIndexType", Null)),
                   ("Vector Index Config", GetOr(vectorDetails.fields, "vectorIndexConfig", EmptyObject)),
                   ("Vectorizer", GetOr(vectorDetails.fields, "vectorizer", EmptyObject))];
      NamedVectorsStep(vectorConfig, i);
      namedVectorsInfo := Put(namedVectorsInfo, vectorName, Object(info));
    }
    assert vectorConfig[..|vectorConfig|] == vectorConfig;
  }

  // ---------------------------------------------------------------------------------------------
  // The earlier projection with fixed sections

  const FixedSectionNames: seq<string> := [
    "Generative Config", "Inverted Index Config", "Multi-Tenancy Config", "Replication Config",
    "Reranker Config", "Sharding Config", "Vector Index Config", "Vectorizer Config"]

  /** process_collection_config of the earlier version: where "moduleConfig" is absent or an
      object, eight fixed sections, three of them read from fixed modules. */
  function FixedSections(config: Dict): Dict
    requires ObjectOrAbsent(config, "moduleConfig")
  {
    if config == [] then [("error", Str(NoConfiguration))]
    else
      var modules := ObjectOr(config, "moduleConfig");
      [("Generative Config", GetOr(modules, "generative-openai", EmptyObject)),
       ("Inverted Index Config", GetOr(config, "invertedIndexConfig", EmptyObject)),
       ("Multi-Tenancy Config", GetOr(config, "multiTenancyConfig", EmptyObject)),
       ("Replication Config", GetOr(config, "replicationConfig", EmptyObject)),
       ("Reranker Config", GetOr(modules, "reranker-cohere", EmptyObject)),
       ("Sharding Config", GetOr(config, "shardingConfig", EmptyObject)),
       ("Vector Index Config", GetOr(config, "vectorIndexConfig", EmptyObject)),
       ("Vectorizer Config", GetOr(modules, "text2vec-openai", EmptyObject))]
  }

  /** A falsy config gives the error entry alone; any other gives exactly the eight sections. */
  lemma FixedSectionsKeys(config: Dict)
    requires ObjectOrAbsent(config, "moduleConfig")
    ensures config == [] ==> FixedSections(config) == [("error", Str(NoConfiguration))]
    ensures config != [] ==> Keys(FixedSections(config)) == FixedSectionNames
  {
    if config != [] {
      var r := FixedSections(config);
      assert forall i :: 0 <= i < 8 ==> Keys(r)[i] == FixedSectionNames[i];
    }
  }

  lemma FixedSectionNamesDistinct()
    ensures forall j :: 0 <= j < 4 ==> FixedSectionNames[j] != FixedSectionNames[4]
    ensures forall j :: 0 <= j < 7 ==> FixedSectionNames[j] != FixedSectionNames[7]
  {
    var n := FixedSectionNames;
    assert |n[0]| == 17 && |n[1]| == 21 && |n[2]| == 20 && |n[3]| == 18;
    assert |n[4]| == 15 && |n[5]| == 15 && |n[6]| == 19 && |n[7]| == 17;
    assert n[0][0] == 'G' && n[7][0] == 'V';
  }

  /** The module sections are read from the fixed modules, {} where the module is missing. */
  lemma FixedModuleSections(config: Dict)
    requires ObjectOrAbsent(config, "moduleConfig") && config != []
    ensures Get(FixedSections(config), "Generative Config") == Some(GetOr(ObjectOr(config, "moduleConfig"), "generative-openai", EmptyObject))
    ensures Get(FixedSections(config), "Reranker Config") == Some(GetOr(ObjectOr(config, "moduleConfig"), "reranker-cohere", EmptyObject))
    ensures Get(FixedSections(config), "Vectorizer Config") == Some(GetOr(ObjectOr(config, "moduleConfig"), "text2vec-openai", EmptyObject))
  {
    var r := FixedSections(config);
    FixedSectionsKeys(config);
    FixedSectionNamesDistinct();
    assert forall j :: 0 <= j < 8 ==> r[j].0 == Keys(r)[j];
    GetAt(r, 0);
    GetAt(r, 4);
    GetAt(r, 7);
  }
}
