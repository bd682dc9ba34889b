/** The node and shard tables of the dashboard's shard view (process_shards_data, in its three
    versions): one row per node, one row per (node, shard) pair in node-major order, the number of
    shards each node holds per collection, and the shards whose vector index is READONLY. */
module ShardTables {
  import opened Basics
  import opened Inventory

  /** A row of node_data. */
  datatype NodeRow = NodeRow(
    nodeName: string,
    gitHash: string,
    version: string,
    status: string,
    objectCountStats: int,
    shardCountStats: int)

  /** A row of shard_data. */
  datatype ShardRow = ShardRow(
    nodeName: string,
    collection: string,
    shardName: string,
    objectCount: int,
    indexStatus: string,
    vectorQueueLength: int,
    compressed: bool,
    loaded: bool)

  /** A row of collection_shard_data. */
  datatype CollectionShardCount = CollectionShardCount(nodeName: string, collection: string, shardCount: nat)

  /** The four tables the shard view is built from. */
  datatype Tables = Tables(
    nodeData: seq<NodeRow>,
    shardData: seq<ShardRow>,
    collectionShardData: seq<CollectionShardCount>,
    readonlyShards: seq<ShardRow>)

  /** The six-column shard row of the oldest dashboard version (no queue length, no compression). */
  datatype FlatShardRow = FlatShardRow(
    nodeName: string,
    collection: string,
    shardName: string,
    objectCount: int,
    indexStatus: string,
    loaded: bool)

  function NodeRowOf(node: Node): NodeRow {
    NodeRow(node.name, node.gitHash, node.version, node.status, node.stats.objectCount, node.stats.shardCount)
  }

  function ShardRowOf(node: Node, s: Shard): ShardRow {
    ShardRow(node.name, s.collection, s.name, s.objectCount, s.vectorIndexingStatus,
      s.vectorQueueLength, s.compressed, s.loaded)
  }

  function Flatten(r: ShardRow): FlatShardRow {
    FlatShardRow(r.nodeName, r.collection, r.shardName, r.objectCount, r.indexStatus, r.loaded)
  }

  /** The node table: one row per node, in inventory order. */
  function NodeRows(nodes: seq<Node>): (rows: seq<NodeRow>)
    ensures |rows| == |nodes|
    ensures forall i :: 0 <= i < |nodes| ==> rows[i].nodeName == nodes[i].name
  {
    seq(|nodes|, i requires 0 <= i < |nodes| => NodeRowOf(nodes[i]))
  }

  /** The shard rows one node contributes. */
  function NodeShardRows(node: Node): (rows: seq<ShardRow>)
    ensures |rows| == |node.shards|
  {
    seq(|node.shards|, j requires 0 <= j < |node.shards| => ShardRowOf(node, node.shards[j]))
  }

  /** The shard table: every node's shards, node after node. */
  function ShardRows(nodes: seq<Node>): seq<ShardRow> {
    if nodes == [] then [] else ShardRows(nodes[..|nodes| - 1]) + NodeShardRows(nodes[|nodes| - 1])
  }

  predicate IsReadOnly(r: ShardRow) {
    r.indexStatus == "READONLY"
  }

  /** The readonly table: the READONLY rows of the shard table, in the same order. */
  function ReadOnlyRows(nodes: seq<Node>): (ro: seq<ShardRow>)
    ensures forall r :: r in ro <==> r in ShardRows(nodes) && r.indexStatus == "READONLY"
    ensures |ro| <= |ShardRows(nodes)|
  {
    Filter(ShardRows(nodes), IsReadOnly)
  }

  function Collections(shards: seq<Shard>): (cs: seq<string>)
    ensures |cs| == |shards|
  {
    seq(|shards|, j requires 0 <= j < |shards| => shards[j].collection)
  }

  /** One node's per-collection shard counts, collections in the order they first appear among the
      node's shards (the key order of the dict filled while walking them). */
  function CountsFor(node: Node): seq<CollectionShardCount> {
    var cols := Collections(node.shards);
    var order := Dedupe(cols);
    seq(|order|, i requires 0 <= i < |order| => CollectionShardCount(node.name, order[i], multiset(cols)[order[i]]))
  }

  function CollectionShardData(nodes: seq<Node>): seq<CollectionShardCount> {
    if nodes == [] then [] else CollectionShardData(nodes[..|nodes| - 1]) + CountsFor(nodes[|nodes| - 1])
  }

  function AllTables(nodes: seq<Node>): Tables {
    Tables(NodeRows(nodes), ShardRows(nodes), CollectionShardData(nodes), ReadOnlyRows(nodes))
  }

  /** The six-column table of the oldest version: the shard table with two columns dropped. */
  function FlatRows(nodes: seq<Node>): seq<FlatShardRow> {
    MapSeq(ShardRows(nodes), Flatten)
  }

  function ShardCounts(cs: seq<CollectionShardCount>): (ns: seq<nat>)
    ensures |ns| == |cs|
  {
    seq(|cs|, i requires 0 <= i < |cs| => cs[i].shardCount)
  }

  // ---------------------------------------------------------------------------------------------
  // Properties of the tables

  /** The shard table has one row per (node, shard) pair. */
  lemma {:induction false} ShardRowsLength(nodes: seq<Node>)
    ensures |ShardRows(nodes)| == TotalShards(nodes)
  {
    if nodes != [] {
      ShardRowsLength(nodes[..|nodes| - 1]);
    }
  }

  /** The rows of node i come after those of every earlier node, in the node's own shard order, and
      carry that node's name. */
  lemma {:induction false} ShardRowAt(nodes: seq<Node>, i: nat, j: nat)
    requires i < |nodes| && j < |nodes[i].shards|
    ensures TotalShards(nodes[..i]) + j < |ShardRows(nodes)|
    ensures ShardRows(nodes)[TotalShards(nodes[..i]) + j] == ShardRowOf(nodes[i], nodes[i].shards[j])
    ensures ShardRows(nodes)[TotalShards(nodes[..i]) + j].nodeName == nodes[i].name
  {
    var n := |nodes| - 1;
    var front := nodes[..n];
    ShardRowsLength(front);
    if i == n {
      assert nodes[..i] == front;
    } else {
      ShardRowAt(front, i, j);
      assert front[..i] == nodes[..i];
      assert front[i] == nodes[i];
    }
  }

  /** The collection column of a count table. */
  function CountedCollections(cs: seq<CollectionShardCount>): (ns: seq<string>)
    ensures |ns| == |cs|
  {
    MapSeq(cs, (c: CollectionShardCount) => c.collection)
  }

  lemma CountsForShape(node: Node)
    ensures CountedCollections(CountsFor(node)) == Dedupe(Collections(node.shards))
    ensures ShardCounts(CountsFor(node)) == Multiplicities(Dedupe(Collections(node.shards)), Collections(node.shards))
  {
  }

  /** One node's counts list every collection the node holds a shard of, each exactly once. */
  lemma CountsForCollections(node: Node)
    ensures forall c :: c in CountedCollections(CountsFor(node)) <==> c in Collections(node.shards)
    ensures NoDuplicates(CountedCollections(CountsFor(node)))
  {
    CountsForShape(node);
  }

  /** Each count is the number of that node's shards belonging to the collection, so at least one. */
  lemma CountsForValues(node: Node)
    ensures forall k :: 0 <= k < |CountsFor(node)| ==>
      CountsFor(node)[k].nodeName == node.name &&
      CountsFor(node)[k].shardCount == multiset(Collections(node.shards))[CountsFor(node)[k].collection] &&
      CountsFor(node)[k].shardCount >= 1
  {
    var cols := Collections(node.shards);
    var cs := CountsFor(node);
    CountsForShape(node);
    forall k | 0 <= k < |cs| ensures cs[k].shardCount >= 1 {
      assert cs[k].collection == CountedCollections(cs)[k];
      assert cs[k].collection in cols;
    }
  }

  /** One node's counts add up to the node's number of shards. */
  lemma CountsForSum(node: Node)
    ensures Sum(ShardCounts(CountsFor(node))) == |node.shards|
  {
    CountsForShape(node);
    DedupeMultiplicitiesSum(Collections(node.shards));
  }

  /** The counts of each node add up to that node's shards, so the whole collection table counts
      every shard of the inventory. */
  lemma {:induction false} CollectionShardDataTotal(nodes: seq<Node>)
    ensures Sum(ShardCounts(CollectionShardData(nodes))) == TotalShards(nodes)
  {
    if nodes != [] {
      var front, last := nodes[..|nodes| - 1], nodes[|nodes| - 1];
      CollectionShardDataTotal(front);
      CountsForSum(last);
      var a, b := CollectionShardData(front), CountsFor(last);
      assert CollectionShardData(nodes) == a + b;
      assert ShardCounts(a + b) == ShardCounts(a) + ShardCounts(b);
      SumConcat(ShardCounts(a), ShardCounts(b));
      assert TotalShards(nodes) == TotalShards(front) + |last.shards|;
    }
  }

  /** Every count in the collection table is positive. */
  lemma {:induction false} CollectionShardDataPositive(nodes: seq<Node>)
    ensures forall k :: 0 <= k < |CollectionShardData(nodes)| ==> CollectionShardData(nodes)[k].shardCount >= 1
  {
    if nodes != [] {
      var front, last := nodes[..|nodes| - 1], nodes[|nodes| - 1];
      CollectionShardDataPositive(front);
      CountsForValues(last);
      var a: seq<CollectionShardCount>, b: seq<CollectionShardCount> := CollectionShardData(front), CountsFor(last);
      assert CollectionShardData(nodes) == a + b;
      forall k | 0 <= k < |a + b| ensures (a + b)[k].shardCount >= 1 {
        if k >= |a| {
          assert (a + b)[k] == b[k - |a|];
        }
      }
    }
  }

  lemma {:induction false} SumConcat(a: seq<nat>, b: seq<nat>)
    ensures Sum(a + b) == Sum(a) + Sum(b)
    decreases |b|
  {
    if b == [] {
      assert a + b == a;
    } else {
      var u := b[..|b| - 1];
      assert a + b == (a + u) + [b[|b| - 1]];
      assert (a + b)[..|a + b| - 1] == a + u;
      SumConcat(a, u);
    }
  }

  // ---------------------------------------------------------------------------------------------
  // The three process_shards_data versions

  lemma ShardRowsStep(nodes: seq<Node>, n: nat)
    requires n < |nodes|
    ensures ShardRows(nodes[..n + 1]) == ShardRows(nodes[..n]) + NodeShardRows(nodes[n])
    ensures CollectionShardData(nodes[..n + 1]) == CollectionShardData(nodes[..n]) + CountsFor(nodes[n])
  {
    assert nodes[..n + 1][..n] == nodes[..n];
  }

  lemma DedupeStep(cols: seq<string>, j: nat)
    requires j < |cols|
    ensures Dedupe(cols[..j + 1]) == if cols[j] in Dedupe(cols[..j]) then Dedupe(cols[..j]) else Dedupe(cols[..j]) + [cols[j]]
    ensures cols[..j + 1] == cols[..j] + [cols[j]]
    ensures multiset(cols[..j + 1]) == multiset(cols[..j]) + multiset{cols[j]}
  {
    assert cols[..j + 1][..j] == cols[..j];
    assert cols[..j + 1] == cols[..j] + [cols[j]];
  }

  /** The per-collection dict after walking `cols`: a key per collection seen, holding the number
      of times it occurs. */
  ghost predicate Tallied(counts: map<string, nat>, cols: seq<string>) {
    (forall c :: c in counts <==> c in cols) &&
    (forall c :: c in counts ==> counts[c] == multiset(cols)[c])
  }

  lemma TallyStep(counts: map<string, nat>, cols: seq<string>, c: string)
    requires Tallied(counts, cols)
    ensures Tallied(counts[c := (if c in counts then counts[c] else 0) + 1], cols + [c])
  {
    var counts' := counts[c := (if c in counts then counts[c] else 0) + 1];
    assert multiset(cols + [c]) == multiset(cols) + multiset{c};
    if c !in counts {
      assert c !in multiset(cols);
    }
    forall c' | c' in counts' ensures counts'[c'] == multiset(cols + [c])[c'] {
      if c' != c {
        assert counts'[c'] == counts[c'];
      }
    }
  }

  /** The per-collection dict of one node: its keys in insertion order and the counts. */
  method CountCollections(node: Node) returns (order: seq<string>, counts: map<string, nat>)
    ensures order == Dedupe(Collections(node.shards))
    ensures forall c :: c in counts <==> c in order
    ensures forall c :: c in counts ==> counts[c] == multiset(Collections(node.shards))[c]
  {
    var cols := Collections(node.shards);
    order, counts := [], map[];
    for j := 0 to |node.shards|
      invariant order == Dedupe(cols[..j])
      invariant Tallied(counts, cols[..j])
    {
      var c := node.shards[j].collection;
      assert c == cols[j];
      DedupeStep(cols, j);
      TallyStep(counts, cols[..j], c);
      var prior := if c in counts then counts[c] else 0;
      if c !in counts {
        order := order + [c];
      }
      counts := counts[c := prior + 1];
    }
    assert cols[..|node.shards|] == cols;
  }

  /** The inner loop over one node's shards: its rows go to the shard table, and those whose
      vector index is READONLY to the readonly table as well. */
  method AppendNodeShards(node: Node, shardData: seq<ShardRow>, readonlyShards: seq<ShardRow>)
    returns (shardData': seq<ShardRow>, readonlyShards': seq<ShardRow>)
    ensures shardData' == shardData + NodeShardRows(node)
    ensures readonlyShards' == readonlyShards + Filter(NodeShardRows(node), IsReadOnly)
  {
    ghost var own := NodeShardRows(node);
    shardData', readonlyShards' := shardData, readonlyShards;
    for j := 0 to |node.shards|
      invariant shardData' == shardData + own[..j]
      invariant readonlyShards' == readonlyShards + Filter(own[..j], IsReadOnly)
    {
      var shard := node.shards[j];
      var shardInfo := ShardRow(node.name, shard.collection, shard.name, shard.objectCount,
        shard.vectorIndexingStatus, shard.vectorQueueLength, shard.compressed, shard.loaded);
      assert shardInfo == own[j];
      FilterStep(readonlyShards, own, j, IsReadOnly);
      PrefixStep(shardData, own, j);
      shardData' := shardData' + [shardInfo];
      if shard.vectorIndexingStatus == "READONLY" {
        readonlyShards' := readonlyShards' + [shardInfo];
      }
    }
    assert own[..|node.shards|] == own;
  }

  /** The loop over one node's collection dict, appending a count row per collection. */
  method AppendNodeCounts(node: Node, acc: seq<CollectionShardCount>) returns (acc': seq<CollectionShardCount>)
    ensures acc' == acc + CountsFor(node)
  {
    var order, counts := CountCollections(node);
    ghost var own := CountsFor(node);
    acc' := acc;
    for k := 0 to |order|
      invariant acc' == acc + own[..k]
    {
      var c := order[k];
      PrefixStep(acc, own, k);
      acc' := acc' + [CollectionShardCount(node.name, c, counts[c])];
    }
    assert own[..|order|] == own;
  }

  /** process_shards_data of the current version: the node table, the shard table, the per-node
      collection counts and the READONLY shards. */
  method ProcessShardsData(nodes: seq<Node>) returns (t: Tables)
    ensures t == AllTables(nodes)
  {
    var nodeData: seq<NodeRow> := [];
    var shardData: seq<ShardRow> := [];
    var collectionShardCounts: seq<CollectionShardCount> := [];
    var readonlyShards: seq<ShardRow> := [];
    for n := 0 to |nodes|
      invariant nodeData == NodeRows(nodes[..n])
      invariant shardData == ShardRows(nodes[..n])
      invariant collectionShardCounts == CollectionShardData(nodes[..n])
      invariant readonlyShards == Filter(ShardRows(nodes[..n]), IsReadOnly)
    {
      var node := nodes[n];
      nodeData := nodeData + [NodeRowOf(node)];
      assert NodeRows(nodes[..n + 1]) == NodeRows(nodes[..n]) + [NodeRowOf(node)];
      ShardRowsStep(nodes, n);
      FilterConcat(ShardRows(nodes[..n]), NodeShardRows(node), IsReadOnly);
      shardData, readonlyShards := AppendNodeShards(node, shardData, readonlyShards);
      collectionShardCounts := AppendNodeCounts(node, collectionShardCounts);
    }
    assert nodes[..|nodes|] == nodes;
    t := Tables(nodeData, shardData, collectionShardCounts, readonlyShards);
  }

  /** process_shards_data of the previous version: only the node and shard tables. */
  method ProcessNodeAndShardRows(nodes: seq<Node>) returns (nodeData: seq<NodeRow>, shardData: seq<ShardRow>)
    ensures nodeData == NodeRows(nodes)
    ensures shardData == ShardRows(nodes)
  {
    nodeData, shardData := [], [];
    for n := 0 to |nodes|
      invariant nodeData == NodeRows(nodes[..n])
      invariant shardData == ShardRows(nodes[..n])
    {
      var node := nodes[n];
      nodeData := nodeData + [NodeRowOf(node)];
      ghost var before := shardData;
      ghost var own := NodeShardRows(node);
      for j := 0 to |node.shards|
        invariant shardData == before + own[..j]
      {
        PrefixStep(before, own, j);
        shardData := shardData + [ShardRowOf(node, node.shards[j])];
      }
      assert own[..|node.shards|] == own;
      assert nodes[..n + 1][..n] == nodes[..n];
      ShardRowsStep(nodes, n);
    }
    assert nodes[..|nodes|] == nodes;
  }

  /** The inner loop of the oldest version over one node's shards. */
  method AppendFlatRows(node: Node, data: seq<FlatShardRow>) returns (data': seq<FlatShardRow>)
    ensures data' == data + MapSeq(NodeShardRows(node), Flatten)
  {
    ghost var own := NodeShardRows(node);
    data' := data;
    for j := 0 to |node.shards|
      invariant data' == data + MapSeq(own[..j], Flatten)
    {
      var shard := node.shards[j];
      MapSeqStep(own, Flatten, j);
      data' := data' + [FlatShardRow(node.name, shard.collection, shard.name, shard.objectCount,
        shard.vectorIndexingStatus, shard.loaded)];
    }
    assert own[..|node.shards|] == own;
  }

  /** process_shards_data of the oldest version: one six-column row per (node, shard) pair. */
  method FlattenShards(nodes: seq<Node>) returns (data: seq<FlatShardRow>)
    ensures data == FlatRows(nodes)
    ensures |data| == TotalShards(nodes)
  {
    data := [];
    for n := 0 to |nodes|
      invariant data == FlatRows(nodes[..n])
    {
      ShardRowsStep(nodes, n);
      MapSeqConcat(ShardRows(nodes[..n]), NodeShardRows(nodes[n]), Flatten);
      data := AppendFlatRows(nodes[n], data);
    }
    assert nodes[..|nodes|] == nodes;
    ShardRowsLength(nodes);
  }
}
