# WeaviateCluster dashboard core, modelled in Dafny

WeaviateCluster is a Streamlit dashboard for operating a Weaviate vector-database cluster. This
project models the logic of the dashboard that does not draw on the screen:

- the replica-consistency detector, which groups the shards every node reports by (collection,
  shard name) and reports each group whose object counts disagree;
- the read-repair sweep, which lists every object id of a collection page by page and then reads
  each id once with consistency level ALL;
- the flatteners that turn the cluster inventory, the RAFT statistics and the metadata answer into
  tables;
- the multi-tenancy filter over the schema;
- the projection of a collection's configuration into display sections;
- the pagination arithmetic of the collection-data view;
- the per-node object lookup and the object tables;
- the session state of the delete page: which collections and tenants are selected, how regular
  collections are bucketed by letter, and what the delete buttons do.

Every Python dictionary keeps its insertion order, so a JSON object is an ordered sequence of
pairs (`Json.Dict`). `d[k] = v` replaces the value in place when the key is present and appends the
pair otherwise. HTTP endpoints and client-library calls are function-typed parameters (oracles)
that map a request record to its answer. An exception caught by the source is an explicit
alternative of the answer (`Answer.Raised`, `MetaFetch.FetchFailed`). pandas DataFrames are
sequences of rows.

The loops of the source are `method`s with `for` loops, and the listing's `while True` is a
`while` loop. Each is proved equal to a recursive function that states its result, and the
promised properties are proved about those functions as lemmas.
The Streamlit session state of the read-repair action is the class `RepairHandler.RepairSession`.
The session state of the delete page is the class `DeletePage.DeletePageState`.

Modules:

- `Basics`: sequence helpers (Dedupe, Filter, FlatMap, Select, Positions, Multiplicities).
- `Text`: Python string ordering and `sorted`, `str` of an int, and the split at the last ':'.
- `Json`: ordered dictionaries with Python's `get`, `d[k] = v` and `update`.
- `Inventory`: the node and shard records of `client.cluster.nodes(output="verbose")`.
- `ShardConsistency`, `ShardTables`, `Statistics`, `Metadata`, `ReadRepair`, `RepairHandler`:
  the cluster views.
- `Multitenancy`, `CollectionConfig`, `CollectionData`, `ObjectLookup`: the schema, collection
  and object views.
- `DeletePage`: the delete page.

## Model

| member | source | states |
|---|---|---|
| ShardConsistency.CheckShardConsistency | utils/cluster/cluster_operations.py:74-103 | The result is the report of disagreeing groups, or None; it is None exactly when every (collection, shard name) group has a single object count (the copy at utils/cluster/cluster.py:47-76 is identical) |
| ShardConsistency.GroupByShard | utils/cluster/cluster_operations.py:79-84 | The keys are the distinct (collection, shard name) pairs in first-seen order, and each maps to its (node, count) members in traversal order |
| ShardConsistency.AppendGroup | utils/cluster/cluster_operations.py:91-97 | Emitting a group appends one report row per member, in member order, tagged with the group's key |
| ShardConsistency.ReportEmptyIffAllAgree | utils/cluster/cluster_operations.py:86-103 | The report is empty if and only if no group's counts disagree |
| ShardConsistency.ReportRowsOfKey | utils/cluster/cluster_operations.py:86-97 | The report's rows for a key are all observations of that key when they disagree, and none otherwise (every member, not just outliers) |
| ShardConsistency.ReportedRowsAreObserved | utils/cluster/cluster_operations.py:86-97 | A row is reported exactly when it was observed and its group disagrees |
| ShardConsistency.SingleObservationNeverReported | utils/cluster/cluster_operations.py:83-90 | A key observed at most once is never reported, whatever its count |
| ShardConsistency.EmptyGroupAgrees | utils/cluster/cluster_operations.py:88-90 | A group with at most one member never has two distinct counts |
| ShardConsistency.CountsOfMembers | utils/cluster/cluster_operations.py:88-90 | The set of counts built from the grouped members is the set of counts of the group's observations |
| ShardConsistency.MembersRoundTrip | utils/cluster/cluster_operations.py:84-97 | Turning a group's rows into (node, count) members and emitting them again gives back the same rows |
| ShardTables.ProcessShardsData | utils/cluster/cluster_operations.py:12-68 | The four tables (nodes, shards, per-node collection counts, READONLY shards) are exactly `AllTables` of the inventory |
| ShardTables.ProcessNodeAndShardRows | utils/cluster/cluster.py:10-41 | The node table is one row per node and the shard table one row per (node, shard), in traversal order |
| ShardTables.FlattenShards | cluster.py:9-21 | The six-column rows are the shard rows in node-major order, and their number is the total number of shards (none for no nodes or no shards) |
| ShardTables.AppendNodeShards | utils/cluster/cluster_operations.py:35-50 | A node's shards append one shard row each, and the READONLY ones are also appended to the readonly table |
| ShardTables.CountCollections | utils/cluster/cluster_operations.py:52-53 | The counting dict has one key per distinct collection in first-seen order, and each count is how often that collection occurs among the node's shards |
| ShardTables.AppendNodeCounts | utils/cluster/cluster_operations.py:55-61 | A node appends one (node, collection, count) row per distinct collection it holds |
| ShardTables.NodeRows | utils/cluster/cluster_operations.py:22-29 | One node row per node, in order, each carrying the node's name |
| ShardTables.ReadOnlyRows | utils/cluster/cluster_operations.py:48-50 | The readonly table holds exactly the shard rows whose index status is "READONLY" |
| ShardTables.ShardRowsLength | utils/cluster/cluster.py:25-36 | The shard table has as many rows as there are shards across all nodes |
| ShardTables.ShardRowAt | utils/cluster/cluster_operations.py:18-46 | Shard j of node i sits at position (shards of the nodes before i) + j and carries node i's name |
| ShardTables.CountsForShape | utils/cluster/cluster_operations.py:52-61 | A node's count rows list its distinct collections in first-seen order, with their multiplicities as counts |
| ShardTables.CountsForCollections | utils/cluster/cluster_operations.py:52-61 | A collection has a count row exactly when the node holds a shard of it, and no collection appears twice |
| ShardTables.CountsForValues | utils/cluster/cluster_operations.py:52-61 | Each count row names the node and counts the node's shards of that collection |
| ShardTables.CountsForSum | utils/cluster/cluster_operations.py:52-61 | A node's shard counts sum to the number of its shards |
| ShardTables.CollectionShardDataTotal | utils/cluster/cluster_operations.py:52-61 | The "Shard Count" column sums to the total number of shards across nodes |
| ShardTables.CollectionShardDataPositive | utils/cluster/cluster_operations.py:52-61 | Every "Shard Count" is at least 1 |
| Statistics.ProcessStatistics | utils/cluster/cluster_operations.py:129-200 | Missing "statistics" gives the error; otherwise the result is `StatisticsTables`: one row per node, and a network table whose rows are the nodes' network rows with duplicates dropped first and None filled with "N/A" after, so every network row is the filled form of a collected one |
| Statistics.ProcessStatisticsBasic | utils/cluster/cluster.py:91-129 | Missing "statistics" gives the error; otherwise one row per node and "synchronized" defaulting to False (cluster.py:40-78 is the same code) |
| Statistics.NodeConfigRows | utils/cluster/cluster_operations.py:170-189 | A node's peers append one peer row each, and one network row for each peer whose address has a ':' |
| Statistics.BasicStatisticsShape | utils/cluster/cluster.py:93-127 | The result is the error exactly when "statistics" is absent; otherwise it has one row per node and the "synchronized" entry or False |
| Statistics.StatRow | utils/cluster/cluster_operations.py:140-166 | A node row has exactly the 25 columns, in order |
| Statistics.StatRowField | utils/cluster/cluster_operations.py:140-166 | Each column keeps its name; a top-level column copies the node's field and a RAFT column copies the field of the node's "raft" object when present, and each reads "N/A" when its field is missing |
| Statistics.Field | utils/cluster/cluster_operations.py:141-165 | A missing field reads "N/A" |
| Statistics.ConfigRowsCount | utils/cluster/cluster_operations.py:170-189 | There is one peer row per peer across all nodes |
| Statistics.NetworkRowsAllMembers | utils/cluster/cluster_operations.py:171-180 | A network row exists exactly for a peer whose address contains ':' |
| Statistics.NetworkRowSplitsAddress | utils/cluster/cluster_operations.py:173-180 | A peer gets a network row exactly when its address is a string containing ':'; IP + ":" + Port is the address and Port holds no ':' (split at the last ':') |
| Statistics.ConfigRowShape | utils/cluster/cluster_operations.py:182-188 | A peer row has its five columns, and says "Voter" exactly when the suffrage equals 0 (False included), "Non-Voter" otherwise |
| Statistics.Suffrage | utils/cluster/cluster_operations.py:187 | The role is "Voter" exactly when the suffrage equals 0, else "Non-Voter" |
| Statistics.FillNaAll | utils/cluster/cluster_operations.py:191-193 | fillna keeps every row and column and replaces only missing values, by "N/A" |
| Statistics.FillNaAllMembers | utils/cluster/cluster_operations.py:191-193 | A row of a filled table is exactly the filled form of a row of the table it came from |
| Metadata.GetMetadata | utils/cluster/cluster_operations.py:202-242 | The result is `MetadataOf` the fetch, and it is the error exactly when the client raised or "modules" is not an object |
| Metadata.GeneralExcludesModules | utils/cluster/cluster_operations.py:207-209 | The general table never has "modules" and has every other entry unchanged |
| Metadata.ModuleLandsOnce | utils/cluster/cluster_operations.py:217-230 | A dict-valued module gives exactly one row, standard exactly when it has both "name" and "documentationHref"; any other module gives none |
| Metadata.ModulePartition | utils/cluster/cluster_operations.py:213-230 | Standard rows plus other rows are as many as the dict-valued modules |
| Metadata.ModuleRowsMembers | utils/cluster/cluster_operations.py:217-230 | A row is a standard (other) row exactly when it is the row of some standard (non-standard) dict-valued module |
| Metadata.OtherRowContents | utils/cluster/cluster_operations.py:226-229 | An other-format row has "Module" and the module's keys; each detail's value with None as "N/A"; "Module" is the module name unless a detail overrides it |
| Metadata.NaValues | utils/cluster/cluster_operations.py:228-229 | Replacing None by "N/A" keeps the keys in order |
| Metadata.GetMetadataView | utils/cluster/cluster.py:131-180 | The result is `MetadataViewOf` the fetch; the general table has no "modules", and there is one module row per module |
| Metadata.ModuleRows | utils/cluster/cluster.py:151-158 | One module row per module |
| Metadata.NestedContents | utils/cluster/cluster.py:161-165 | A module's nested details are exactly its details other than "name" and "documentationHref" |
| Metadata.NestedTablesMembers | utils/cluster/cluster.py:160-169 | A nested table is recorded for a module exactly when it has other details, and it holds them |
| Multitenancy.GetMultitenancyCollections | utils/multitenancy/tenantdetails.py:8-20 | The result is the entries of the enabled classes, in schema order, no more of them than classes |
| Multitenancy.EnabledEntriesSelect | utils/multitenancy/tenantdetails.py:10-18 | The result is a subsequence of the classes: it takes the enabled positions in increasing order, and a position is taken exactly when its class is enabled |
| Multitenancy.EnabledEntriesMembers | utils/multitenancy/tenantdetails.py:11-18 | An entry is in the result exactly when an enabled class gives it (its name or 'Unknown Class', and its own multiTenancyConfig) |
| Multitenancy.Classes | utils/multitenancy/tenantdetails.py:10 | A schema without "classes" gives no classes |
| CollectionConfig.FetchCollectionConfig | utils/cluster/collection.py:80-90 | The config is the first class whose "class" is the name on a 200 answer, else the error dict (collection.py:76-86 is the same code) |
| CollectionConfig.FindClass | utils/cluster/collection.py:87-89 | The search finds the first class of the name, or reports that no class has it |
| CollectionConfig.FindClassFirst | utils/cluster/collection.py:87-89 | When class k is the first of the name, the search returns k |
| CollectionConfig.FetchedConfigCases | utils/cluster/collection.py:85-90 | A non-200 answer or a missing name gives the error dict with status and text; otherwise the first matching class |
| CollectionConfig.ProcessCollectionConfig | utils/cluster/collection.py:93-130 | The sections are exactly `Sections` of the config |
| CollectionConfig.EmptyConfigIsError | utils/cluster/collection.py:94-95 | A falsy config gives only the error entry; any other has at least four sections |
| CollectionConfig.BaseSectionsFirst | utils/cluster/collection.py:98-103 | The four base sections come first, in order |
| CollectionConfig.BaseSectionValue | utils/cluster/collection.py:98-103 | A base section holds its config entry, {} by default, unless a module of the same name overrides it |
| CollectionConfig.NonVectorSection | utils/cluster/collection.py:105-110 | A section other than the vector ones is what the base and module sections give |
| CollectionConfig.ModuleSections | utils/cluster/collection.py:106-110 | Every moduleConfig entry becomes a section under its module name, holding the module's config |
| CollectionConfig.VectorSectionsKeepPrefix | utils/cluster/collection.py:112-128 | Adding the vector sections keeps the base and module sections first, in place |
| CollectionConfig.SingleVectorSections | utils/cluster/collection.py:113-115 | With both "vectorIndexConfig" and "vectorizer", "vectorIndexType" and "Vector Index Config" hold their entries, {} by default |
| CollectionConfig.NoSingleVectorSection | utils/cluster/collection.py:113-115 | Without both, "vectorIndexType" is absent (unless a module of that name supplies it) |
| CollectionConfig.NamedVectorsSection | utils/cluster/collection.py:118-128 | With "vectorConfig", "Named Vectors Config" holds one entry per named vector and no other |
| CollectionConfig.NoNamedVectorsSection | utils/cluster/collection.py:118-128 | Without "vectorConfig", "Named Vectors Config" is absent (unless a module of that name supplies it) |
| CollectionConfig.CollectNamedVectors | utils/cluster/collection.py:119-127 | The loop builds exactly `NamedVectors` of the vector config |
| CollectionConfig.NamedVectorsKeys | utils/cluster/collection.py:119-127 | The table has an entry for a name exactly when the vector config has one |
| CollectionConfig.NamedVectorsEntries | utils/cluster/collection.py:120-127 | Each entry is the three-field info of that vector's details |
| CollectionConfig.VectorInfo | utils/cluster/collection.py:122-126 | A named vector's info has exactly the three fields, in order |
| CollectionConfig.FixedSectionsKeys | collection.py:89-102 | A falsy config gives only the error entry; otherwise exactly the eight fixed section keys, in order |
| CollectionConfig.FixedModuleSections | collection.py:93-102 | The module sections read generative-openai, reranker-cohere and text2vec-openai from moduleConfig, {} by default |
| CollectionData.TenantScope | utils/collections/data.py:37-39 | A tenant is applied exactly when one is given and non-empty |
| CollectionData.FloorDiv | utils/collections/data.py:75 | Python's floor division: the quotient rounds toward minus infinity |
| CollectionData.OffsetsTile | utils/collections/data.py:47 | Page 1 starts at offset 0 and each page starts items_per_page after the previous one |
| CollectionData.TotalPagesIsCeiling | utils/collections/data.py:75 | -(-total // per_page) is the ceiling: the pages cover the total, one page fewer would not, and a total of 0 gives 0 pages |
| CollectionData.PagesCoverObjects | utils/collections/data.py:47-75 | Object i lies on page i // per_page + 1, within the page count and the page's offset range |
| CollectionData.Rows | utils/collections/data.py:59-67 | One row per object, in order |
| CollectionData.RowOfProperties | utils/collections/data.py:60 | A row carries each property that is not overwritten by the added columns |
| CollectionData.RowOfUuid | utils/collections/data.py:61 | A row's "uuid" is the object's uuid |
| CollectionData.RowOfTenant | utils/collections/data.py:65-66 | With a tenant, a row's "tenant" is the tenant's name |
| CollectionData.RowOfNoTenant | utils/collections/data.py:65-66 | Without a tenant, a row's "tenant" is whatever the properties hold |
| CollectionData.WithCollectionColumn | utils/collections/data.py:71 | Adding the collection column keeps one row per row |
| CollectionData.CollectRows | utils/collections/data.py:59-67 | The loop builds exactly `Rows` of the objects |
| CollectionData.PageOfShape | utils/collections/data.py:31-96 | The page and size are echoed; the data is empty exactly when a call raised or no object came back, and then the totals are 0; otherwise the count and the ceiling page count |
| CollectionData.PageOfRows | utils/collections/data.py:59-78 | A non-empty page has one row per returned object, each with its uuid and the collection label |
| CollectionData.FetchCollectionData | utils/collections/data.py:31-96 | The answer is `PageOf` the oracles and the page; the query is asked only after the count succeeded, at offset (page-1)*items_per_page |
| CollectionData.ListAllCollections | utils/collections/data.py:4-13 | A raise gives [], otherwise the client's list |
| CollectionData.TenantNames | utils/collections/data.py:15-29 | A raise gives []; otherwise the tenants' names in map order |
| CollectionData.TenantNamesMembers | utils/collections/data.py:23 | A name is listed exactly when some tenant has it |
| ObjectLookup.NodeNamesNumbered | utils/objects/objects.py:49-53 | There are 12 node names, weaviate-0 to weaviate-11 in order |
| ObjectLookup.NodeNamesDistinct | utils/objects/objects.py:49-53 | The node names are pairwise distinct |
| ObjectLookup.StatusMark | utils/objects/objects.py:64-71 | 200 gives the check mark, 404 the cross, 500 "N/A", any other code "Error " and the code |
| ObjectLookup.StatusMarkInjective | utils/objects/objects.py:64-71 | Different status codes give different marks |
| ObjectLookup.ScanNodes | utils/objects/objects.py:58-71 | The result keys are the node names in order; one request per node, each result the mark of its answer |
| ObjectLookup.FindObjectOnNodes | utils/objects/objects.py:47-74 | The keys are exactly the 12 node names, one request per node in list order, each classified by its status (find_object_in_collection_on_nodes, utils/objects/object.py:52-79, is the same scan) |
| ObjectLookup.FindObjectInTenantOnNodes | utils/objects/object.py:81-108 | The same scan, every request also naming the tenant |
| ObjectLookup.GetObject | utils/objects/objects.py:4-12 | None exactly when the fetch finds nothing, else the fetched object |
| ObjectLookup.GetObjectInCollection | utils/objects/object.py:5-13 | None exactly when the fetch (with vector) finds nothing, else the object |
| ObjectLookup.GetObjectInTenant | utils/objects/object.py:16-24 | None exactly when the tenant-scoped fetch finds nothing, else the object |
| ObjectLookup.ObjectTable | utils/objects/objects.py:15-39 | No table exactly when there is no object |
| ObjectLookup.InspectorTable | utils/objects/object.py:26-50 | No table exactly when there is no object |
| ObjectLookup.RowShape | utils/objects/objects.py:26-35 | Writing the properties after the columns keeps the columns first; a property overrides a same-named column; other columns keep their values |
| ObjectLookup.ObjectColumnsFresh | utils/objects/objects.py:20-31 | The metadata fields are new keys, so update appends them after uuid and collection |
| ObjectLookup.InspectorColumnsFresh | utils/objects/object.py:31-42 | The time fields are new keys, so update appends them after UUID, Collection and Vectors |
| ObjectLookup.ObjectRowShape | utils/objects/objects.py:20-35 | The row starts with the five fixed columns, has exactly those and the property keys, and properties override same-named columns |
| ObjectLookup.InspectorRowShape | utils/objects/object.py:31-46 | The same shape for the inspector's five columns |
| ObjectLookup.MissingObjectNoTable | utils/objects/objects.py:8-18 | An object the fetch does not find gives no table, in all three lookups |
| ObjectLookup.PutProperties | utils/objects/objects.py:33-35 | The property loop is a dict update |
| ObjectLookup.DisplayObjectAsTable | utils/objects/objects.py:15-39 | The method builds `ObjectTable` of the object |
| ObjectLookup.DisplayInspectorTable | utils/objects/object.py:26-50 | The method builds `InspectorTable` of the object |
| ReadRepair.Enumerate | utils/cluster/cluster_operations.py:260-282 | The listing makes at least one request |
| ReadRepair.EnumerateOffsets | utils/cluster/cluster_operations.py:255-282 | Request i asks for offset i * limit, with the collection, limit and consistency of the sweep |
| ReadRepair.EnumerateStopsAtFirst | utils/cluster/cluster_operations.py:266-275 | The listing stops at the first non-200 or empty page; it keeps an error exactly when that page was not a 200 |
| ReadRepair.EnumerateIds | utils/cluster/cluster_operations.py:272-279 | The ids are those of the pages before the last request, in order |
| ReadRepair.IdsOf | utils/cluster/cluster_operations.py:277-279 | One id per object, None for an object without "id" |
| ReadRepair.AppendIds | utils/cluster/cluster_operations.py:277-279 | A page's ids are appended in order |
| ReadRepair.ListAllIds | utils/cluster/cluster_operations.py:255-282 | The loop's requests, ids and error are exactly those of `Enumerate` |
| ReadRepair.Classify | utils/cluster/cluster_operations.py:295-302 | 200 is found, 404 not found, anything else a failure carrying its status and text |
| ReadRepair.ReadRequests | utils/cluster/cluster_operations.py:288-293 | One read per collected id |
| ReadRepair.Outcomes | utils/cluster/cluster_operations.py:288-302 | One outcome per collected id |
| ReadRepair.ReadRepairs | utils/cluster/cluster_operations.py:245-302 | The sweep lists with limit 500, then reads every collected id once in order and classifies each answer |
| ReadRepair.ReadRepairsRequests | utils/cluster/cluster_operations.py:255-293 | The sweep asks for offsets 0, 500, 1000, ..., and read j is for id j |
| RepairHandler.InconsistentCollections | utils/cluster/cluster_operations_handlers.py:281 | The collection list has no duplicates and holds exactly the report's collections |
| RepairHandler.InconsistentCollectionsCount | utils/cluster/cluster_operations_handlers.py:48-49 | The displayed count is the number of distinct collections in the report |
| RepairHandler.InconsistentCollectionsListed | utils/cluster/cluster_operations_handlers.py:276-285 | A collection is offered for repair exactly when one of its shards has disagreeing counts |
| RepairHandler.ActionCheckShardConsistency | utils/cluster/cluster_operations_handlers.py:43-55 | No node information gives the error; otherwise "all consistent" exactly when all groups agree, else the report and its distinct-collection count |
| RepairHandler.ReadLines | utils/cluster/cluster_operations_handlers.py:357-370 | One log line per id, in order, with 1-based index and total and the class of its answer |
| RepairHandler.FinalProgress | utils/cluster/cluster_operations_handlers.py:371 | After the reads the progress is full, or untouched when there was no id |
| RepairHandler.RepairLogFrame | utils/cluster/cluster_operations_handlers.py:329-374 | The log starts with the fetching line and ends with the iteration-complete line, and has a listing-error line exactly when the listing failed |
| RepairHandler.RepairLogReads | utils/cluster/cluster_operations_handlers.py:357-370 | The log has exactly one read line per collected id |
| RepairHandler.RadioOptions | utils/cluster/cluster_operations_handlers.py:284-296 | The radio button offers the stored list, or the report's collections when no list is stored yet |
| RepairHandler.RadioChoice | utils/cluster/cluster_operations_handlers.py:292-296 | A stored choice is kept; with none stored the radio button holds its first option, and nothing only when it has no option |
| RepairHandler.FirstChoiceInReport | utils/cluster/cluster_operations_handlers.py:281-310 | On the first run with inconsistencies the default choice is one of the report's collections, so a submit is not rejected |
| RepairHandler.RepairSession.constructor | utils/cluster/cluster_operations_handlers.py:284-285 | A fresh session has no repair list, nothing stored for the radio button, an empty log and progress 0 |
| RepairHandler.RepairSession.Select | utils/cluster/cluster_operations_handlers.py:291-296 | Choosing in the radio sets the selection and changes nothing else |
| RepairHandler.RepairSession.ReadEach | utils/cluster/cluster_operations_handlers.py:353-373 | Each id is read once in order; the log gains one line per id and the progress ends full |
| RepairHandler.RepairSession.RunRepair | utils/cluster/cluster_operations_handlers.py:312-374 | The log restarts, the listing uses limit 1000 with consistency ALL, a listing error only ends the listing, and the collected ids are all read |
| RepairHandler.RepairSession.ActionReadRepairs | utils/cluster/cluster_operations_handlers.py:269-376 | No request without nodes, with a consistent cluster, without submit, or with a selection not in the repair list; the list is set when absent and replaced only on Refresh; the radio button, drawn before Refresh, fills an empty selection with its first option; a valid submit repairs the selection |
| DeletePage.Regular | pages/delete.py:23-24 | The regular collections are exactly the listed ones without a multi-tenant entry |
| DeletePage.FilterSorted | pages/delete.py:23-24 | Filtering a sorted list keeps it sorted |
| DeletePage.LettersMembers | pages/delete.py:49-54 | A letter is a key exactly when some regular collection starts with it |
| DeletePage.BucketMapAt | pages/delete.py:49-54 | The loop's dict has a key exactly for each letter, holding the collections with that first letter in order |
| DeletePage.BucketByLetter | pages/delete.py:49-54 | The letters in insertion order, each bucket holding exactly the collections with that first letter, in order |
| DeletePage.BucketsPartition | pages/delete.py:49-54 | Each regular collection lands in exactly one bucket, the one of its first letter |
| DeletePage.SortedMembers | pages/delete.py:57-60 | Sorting keeps exactly the same members |
| DeletePage.VisitOrderMembers | pages/delete.py:57-60 | The check boxes visited are exactly the regular collections |
| DeletePage.MtMapMembers | pages/delete.py:130-134 | A collection has an entry exactly when it is listed and has tenants, and the entry is its tenant names sorted |
| DeletePage.MtKeys | pages/delete.py:130-134 | The dict's keys are exactly its insertion order, without duplicates |
| DeletePage.RebuildMt | pages/delete.py:130-134 | The rebuilt dict and its key order are exactly `MtMap` and `MtOrder` |
| DeletePage.RebuildPartition | pages/delete.py:118-134 | A listed collection is multi-tenant exactly when it has tenants, sorted and permuted, and regular otherwise; the regular list stays sorted |
| DeletePage.TenantDeleteOutcome | pages/delete.py:78-92 | Calls are made exactly when some tenant is selected, one per collection with a selection; a selection changes only when its call succeeded, and then it is emptied |
| DeletePage.TickedTenantsMembers | pages/delete.py:106-112 | After the check boxes a tenant is selected exactly when its box is checked; tenants without a box keep their state |
| DeletePage.ShownAfterMembers | pages/delete.py:96-112 | The expanders add a selection key only for shown collections with tenants, and each selection follows the check boxes |
| DeletePage.ShownAfterNone | pages/delete.py:113-114 | Collections without tenants leave the selection unchanged |
| DeletePage.DeletePageState.constructor | pages/delete.py:7-16 | The session starts with no selection, no collections and no multi-tenant entries |
| DeletePage.DeletePageState.Refresh | pages/delete.py:118-134 | The list is the sorted collection names, or [] on a raise; the multi-tenant dict is rebuilt from scratch; the tenant lookup is asked for every listed collection |
| DeletePage.DeletePageState.TickCollections | pages/delete.py:60-65 | A checked box adds the collection, an unchecked one discards it, and other selections are unchanged |
| DeletePage.DeletePageState.ShowCollectionCheckBoxes | pages/delete.py:48-65 | The boxes are visited letter by letter in sorted order, sorted within a letter, and the selection follows them |
| DeletePage.DeletePageState.HandleCollectionSelection | pages/delete.py:18-67 | An empty selection makes no delete call; a successful delete clears the selection and reruns; otherwise the boxes are shown |
| DeletePage.DeletePageState.TickTenants | pages/delete.py:101-112 | A collection's selection follows its tenant boxes, a new key is recorded once, and the other collections are unchanged |
| DeletePage.DeletePageState.DeleteTenants | pages/delete.py:81-92 | One call per collection with selected tenants, in dict order; only collections whose call succeeded are cleared |
| DeletePage.DeletePageState.HandleMtCollectionSelection | pages/delete.py:69-116 | Without multi-tenant collections nothing changes; a delete with no selected tenant makes no call; a delete reruns after the calls; otherwise the expanders are shown in sorted order |
| DeletePage.DeletePageState.ShowCollectionTenants | pages/delete.py:97-114 | One expander: a shown collection gets its selection key and follows its boxes; one without tenants changes nothing |
| DeletePage.DeletePageState.ShowTenantCheckBoxes | pages/delete.py:96-112 | The expanders, in sorted order, leave the selection `ShownAfter` gives and record new keys in that order |
| Text.SortStrings | pages/delete.py:126 | `sort()` gives a sorted permutation of the list |
| Text.SplitAtLastColon | utils/cluster/cluster_operations.py:175 | `rsplit(":", 1)` gives the parts on either side of the last ':', which rejoin to the address |
| Text.IntToStringInjective | utils/objects/objects.py:71 | Different codes render as different strings |
| Text.NatToStringRoundTrip | utils/objects/objects.py:71 | The rendering of a natural number reads back as the same number |
| Json.Put | utils/cluster/collection.py:110 | `d[k] = v` sets k to v, keeps the other entries, and keeps the key order (a new key is appended) |
| Json.Update | utils/objects/objects.py:31 | `update` gives the new value of every key it writes, keeps the others, and keeps the old keys first |
| Json.FillNa | utils/cluster/cluster_operations.py:191 | A row's missing values become "N/A" and the rest stay |
| Basics.Dedupe | utils/cluster/cluster_operations_handlers.py:281 | `unique()` keeps each value once and loses none |
| Basics.DedupeFirstSeenOrder | utils/cluster/cluster_operations_handlers.py:281 | `unique()` keeps the values in first-seen order |

## Left out

- Streamlit rendering is not modelled: widgets, markdown, expanders, forms, text areas and success or error messages. Only the session-state values the logic reads or writes are kept, and a click or a check-box state is a parameter.
- pandas is not modelled. A DataFrame is a sequence of rows, and `astype(str)` and the DataFrame constructor are left out.
- HTTP and the weaviate client are oracles. Connection code, `get_shards_info`, `get_schema`, `list_collections`, `aggregate_collections`, `get_collectios_count`, `fetch_cluster_statistics`, the delete calls and `list_all_uuids` are left out. They only forward to a library the model cannot see.
- `print` logging is not modelled, and neither is the repair log's exact text. Each log line is a record holding the same information.
- The repair progress is a (done, total) pair of integers instead of the float `index / len(all_uuids)`.
- Batching, resuming or stopping a repair job is not modelled, because the code has none.
- main(), the page navigation and the dispatch table are left out. So is pages/multitenancy.py, which imports a function tenantdetails.py does not define.
- `action_metadata` reads keys that the current `get_metadata` does not return. That wiring is not modelled; each `get_metadata` is modelled on its own.
- DeletePage.DeletePageState.constructor: models the first run of the page. `initialize_session_state` does nothing on later runs, and `Refresh` then keeps the selection.
- DeletePage.DeletePageState.HandleCollectionSelection: the collections passed to the delete call are a set. The order `list(set)` gives them is not modelled.
- DeletePage.DeletePageState.DeleteTenants: the tenants passed to each call are a set, not the order `list(tenants)` gives.
- DeletePage.BucketByLetter: requires non-empty names, because `col[0]` raises IndexError on an empty name. DeletePage.DeletePageState.HandleCollectionSelection asks this of the regular collections only, as those are the ones bucketed. The letter is upper-cased for ASCII only; Unicode case mapping is not modelled.
- DeletePage.DeletePageState.Refresh: `list_all_collections` is taken to return names. The dict-to-keys conversion (`isinstance` check) is not modelled.
- ReadRepair.ListAllIds: requires that every page from some offset on stops the listing, since the `while True` loop terminates only then. ReadRepair.ReadRepairs, RepairHandler.RepairSession.RunRepair and RepairHandler.RepairSession.ActionReadRepairs carry the same requirement.
- Statistics.ProcessStatistics: requires "statistics", when present, to be a list of objects. Each "raft" must be absent or an object, and each "latestConfiguration" absent or a list of peer objects whose address, if present, is a string. On other input the source raises instead of returning.
- Statistics.ProcessStatisticsBasic: requires "statistics", when present, to be a list of objects whose "raft" is absent or an object, for the same reason.
- Metadata.GetMetadataView: requires "modules" to be an object of objects. On other input the source raises outside its RequestException handler.
- Multitenancy.GetMultitenancyCollections: requires "classes" to be absent or a list of objects. Each multiTenancyConfig that is truthy must be an object, as `.get` on anything else raises.
- CollectionConfig.FetchCollectionConfig: requires a 200 body whose "classes" is a list of objects.
- CollectionConfig.ProcessCollectionConfig: requires "moduleConfig" to be absent or an object, and "vectorConfig" to be absent or an object of objects, as the loops call `.items()` and `.get` on them.
- CollectionConfig.FixedModuleSections: requires "moduleConfig" to be absent or an object, for the same reason.
- CollectionData.FetchCollectionData: the client's exceptions are an absent answer, and the failure message is not kept.
- Metadata.GetMetadata: values are kept as JSON values instead of their `str()` renderings.
- JSON numbers are integers only; `Json.Value` has no float. So Statistics.Suffrage does not see that a suffrage of `0.0` also equals 0, and a field that may hold a float, such as "lastContact", is modelled only with the integer, string or other values `Json.Value` has.
- RepairHandler.RepairSession.ActionReadRepairs: a stored radio choice that is no longer among the options is kept as stored, and is then rejected on submit. Streamlit's rule for resetting a widget whose options change is not modelled.
