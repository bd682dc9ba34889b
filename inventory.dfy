/** The verbose node inventory that the database client returns (client.cluster.nodes): one entry
    per node, each with its shards. Only the fields the dashboard reads are kept. */
module Inventory {

  datatype Shard = Shard(
    collection: string,
    name: string,
    objectCount: int,
    vectorIndexingStatus: string,
    vectorQueueLength: int,
    compressed: bool,
    loaded: bool)

  datatype NodeStats = NodeStats(objectCount: int, shardCount: int)

  datatype Node = Node(
    name: string,
    gitHash: string,
    version: string,
    status: string,
    stats: NodeStats,
    shards: seq<Shard>)

  /** Number of (node, shard) pairs in the inventory. */
  function TotalShards(nodes: seq<Node>): nat {
    if nodes == [] then 0 else TotalShards(nodes[..|nodes| - 1]) + |nodes[|nodes| - 1].shards|
  }
}
