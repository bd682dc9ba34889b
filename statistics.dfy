/** The cluster statistics view (process_statistics, in three versions). The statistics endpoint
    answers with an object whose "statistics" entry lists one object per node, each with an
    optional "raft" object; the raft object's "latestConfiguration" lists the peers the node knows. */
module Statistics {
  import opened Basics
  import opened Json
  import opened Text

  /** Where a column of the node table is read from: the node object or its "raft" object. */
  datatype Source = Top(key: string) | Raft(key: string)

  /** The 25 columns of a node row, in order, with the field each one is read from. */
  const NodeColumns: seq<(string, Source)> := [
    ("Node Name", Top("name")),
    ("Leader ID", Top("leaderId")),
    ("Leader Address", Top("leaderAddress")),
    ("State", Raft("state")),
    ("Status", Top("status")),
    ("Ready", Top("ready")),
    ("DB Loaded", Top("dbLoaded")),
    ("Open", Top("open")),
    ("Is Voter", Top("isVoter")),
    ("Applied Index", Raft("appliedIndex")),
    ("Commit Index", Raft("commitIndex")),
    ("Last Contact", Raft("lastContact")),
    ("Last Log Index", Raft("lastLogIndex")),
    ("Last Log Term", Raft("lastLogTerm")),
    ("Initial Last Applied Index", Top("initialLastAppliedIndex")),
    ("Num Peers", Raft("numPeers")),
    ("Term", Raft("term")),
    ("FSM Pending", Raft("fsmPending")),
    ("Last Snapshot Index", Raft("lastSnapshotIndex")),
    ("Last Snapshot Term", Raft("lastSnapshotTerm")),
    ("Protocol Version", Raft("protocolVersion")),
    ("Protocol Version Max", Raft("protocolVersionMax")),
    ("Protocol Version Min", Raft("protocolVersionMin")),
    ("Snapshot Version Max", Raft("snapshotVersionMax")),
    ("Snapshot Version Min", Raft("snapshotVersionMin"))
  ]

  const InvalidStatistics: string := "Invalid statistics data received."

  /** Whether the field a column reads is present. */
  predicate Present(node: Dict, src: Source) {
    match src
    case Top(k) => HasKey(node, k)
    case Raft(k) => HasKey(ObjectOr(node, "raft"), k)
  }

  /** A column's value: the field when present, "N/A" otherwise (node.get(k, "N/A") and
      node.get("raft", {}).get(k, "N/A")). */
  function Field(node: Dict, src: Source): (v: Value)
    ensures !Present(node, src) ==> v == NA
  {
    match src
    case Top(k) => GetOr(node, k, NA)
    case Raft(k) => GetOr(ObjectOr(node, "raft"), k, NA)
  }

  function ColumnNames(): (names: seq<string>)
    ensures |names| == |NodeColumns|
  {
    seq(|NodeColumns|, i requires 0 <= i < |NodeColumns| => NodeColumns[i].0)
  }

  /** The flattened row of one node. */
  function StatRow(node: Dict): (row: Dict)
    ensures Keys(row) == ColumnNames()
  {
    seq(|NodeColumns|, i requires 0 <= i < |NodeColumns| => (NodeColumns[i].0, Field(node, NodeColumns[i].1)))
  }

  function StatRows(nodes: seq<Value>): (rows: seq<Dict>)
    ensures |rows| == |nodes|
  {
    seq(|nodes|, i requires 0 <= i < |nodes| => StatRow(FieldsOf(nodes[i])))
  }

  /** A node the basic versions can flatten: an object whose "raft" entry, if any, is an object. */
  predicate BasicNodeShaped(v: Value) {
    v.Object? && ObjectOrAbsent(v.fields, "raft")
  }

  /** A peer entry the current version can process: an object whose "address", if any, is a string
      (anything else would make the `":" in address` test fail or mean something else). */
  predicate ConfigShaped(c: Value) {
    c.Object? && (Get(c.fields, "address").None? || Get(c.fields, "address").value.Str?)
  }

  /** The peers a node lists (node.get("raft", {}).get("latestConfiguration", [])). */
  function Configs(node: Dict): seq<Value> {
    match Get(ObjectOr(node, "raft"), "latestConfiguration")
    case Some(Array(cs)) => cs
    case _ => []
  }

  predicate NodeShaped(v: Value) {
    BasicNodeShaped(v) &&
    (match Get(ObjectOr(v.fields, "raft"), "latestConfiguration")
     case None => true
     case Some(Array(cs)) => forall c :: c in cs ==> ConfigShaped(c)
     case Some(_) => false)
  }

  /** The statistics entry, when present, is a list of well-formed nodes. */
  predicate StatsShaped(stats: Dict) {
    match Get(stats, "statistics")
    case None => true
    case Some(Array(ns)) => forall v :: v in ns ==> NodeShaped(v)
    case Some(_) => false
  }

  predicate BasicStatsShaped(stats: Dict) {
    match Get(stats, "statistics")
    case None => true
    case Some(Array(ns)) => forall v :: v in ns ==> BasicNodeShaped(v)
    case Some(_) => false
  }

  function Nodes(stats: Dict): seq<Value> {
    match Get(stats, "statistics")
    case Some(Array(ns)) => ns
    case _ => []
  }

  lemma NodesShaped(stats: Dict)
    requires BasicStatsShaped(stats) || StatsShaped(stats)
    ensures StatsShaped(stats) ==> forall v :: v in Nodes(stats) ==> NodeShaped(v)
    ensures forall v :: v in Nodes(stats) ==> BasicNodeShaped(v)
  {
  }

  function Address(config: Dict): Value {
    GetOr(config, "address", NA)
  }

  /** The peer's role: "Voter" exactly when its suffrage equals 0 (False counts as 0 in Python);
      an absent suffrage is a "Non-Voter". */
  function Suffrage(config: Dict): (s: string)
    ensures s == "Voter" || s == "Non-Voter"
    ensures s == "Voter" <==> Get(config, "suffrage") in {Some(Int(0)), Some(Bool(false))}
  {
    if EqualsZero(GetOr(config, "suffrage", Null)) then "Voter" else "Non-Voter"
  }

  /** The network row of a peer whose address contains ':' (address.rsplit(":", 1)). */
  function NetworkRowOf(config: Dict): Option<Dict> {
    match Address(config)
    case Str(a) =>
      if ':' in a then
        var parts := SplitAtLastColon(a);
        Some([("Pod", GetOr(config, "id", NA)), ("IP", Str(parts.0)), ("Port", Str(parts.1))])
      else None
    case _ => None
  }

  /** A peer has a network row exactly when its address contains ':'; the row's IP and Port are
      the address split at its last ':' (the port holds no ':'), and its Pod is the peer's id. */
  lemma NetworkRowSplitsAddress(config: Dict)
    ensures NetworkRowOf(config).Some? <==> Address(config).Str? && ':' in Address(config).s
    ensures NetworkRowOf(config).Some? ==>
      var row := NetworkRowOf(config).value;
      Keys(row) == ["Pod", "IP", "Port"] && row[0].1 == GetOr(config, "id", NA) &&
      row[1].1.Str? && row[2].1.Str? &&
      row[1].1.s + ":" + row[2].1.s == Address(config).s && ':' !in row[2].1.s
  {
  }

  /** The latest-configuration row of one peer of a node. */
  function ConfigRow(node: Dict, config: Dict): Dict {
    [("Node Name", GetOr(node, "name", NA)),
     ("Node State", GetOr(ObjectOr(node, "raft"), "state", NA)),
     ("Peer ID", GetOr(config, "id", NA)),
     ("Peer Address", Address(config)),
     ("Peer Suffrage", Str(Suffrage(config)))]
  }

  /** A peer row names the node, the node's raft state and the peer, and is a "Voter" row
      exactly when the peer's suffrage equals 0. */
  lemma ConfigRowShape(node: Dict, config: Dict)
    ensures Keys(ConfigRow(node, config)) == ["Node Name", "Node State", "Peer ID", "Peer Address", "Peer Suffrage"]
    ensures ConfigRow(node, config)[4].1 == Str("Voter") <==> Get(config, "suffrage") in {Some(Int(0)), Some(Bool(false))}
    ensures ConfigRow(node, config)[4].1 != Str("Voter") ==> ConfigRow(node, config)[4].1 == Str("Non-Voter")
  {
  }

  function ConfigRowMaker(node: Dict): Value -> Dict {
    c => ConfigRow(node, FieldsOf(c))
  }

  /** The peer rows of a node, one per peer in order. */
  function ConfigRowsFrom(node: Dict, cs: seq<Value>): (rows: seq<Dict>)
    ensures |rows| == |cs|
    ensures forall i :: 0 <= i < |cs| ==> rows[i] == ConfigRow(node, FieldsOf(cs[i]))
  {
    MapSeq(cs, ConfigRowMaker(node))
  }

  /** The network rows one peer contributes: none, or its split address. */
  function PeerNetworkRows(c: Value): seq<Dict> {
    match NetworkRowOf(FieldsOf(c))
    case Some(r) => [r]
    case None => []
  }

  function NetworkRowsFrom(cs: seq<Value>): seq<Dict> {
    FlatMap(cs, PeerNetworkRows)
  }

  /** The peer rows one node contributes. */
  function NodeConfigRowsOf(v: Value): seq<Dict> {
    ConfigRowsFrom(FieldsOf(v), Configs(FieldsOf(v)))
  }

  /** The network rows one node contributes. */
  function NodeNetworkRows(v: Value): seq<Dict> {
    NetworkRowsFrom(Configs(FieldsOf(v)))
  }

  function ConfigRowsAll(nodes: seq<Value>): seq<Dict> {
    FlatMap(nodes, NodeConfigRowsOf)
  }

  function NetworkRowsAll(nodes: seq<Value>): seq<Dict> {
    FlatMap(nodes, NodeNetworkRows)
  }

  function NumConfigs(nodes: seq<Value>): nat {
    if nodes == [] then 0 else NumConfigs(nodes[..|nodes| - 1]) + |Configs(FieldsOf(nodes[|nodes| - 1]))|
  }

  function FillNaAll(rows: seq<Dict>): (r: seq<Dict>)
    ensures |r| == |rows|
  {
    seq(|rows|, i requires 0 <= i < |rows| => FillNa(rows[i]))
  }

  datatype StatsResult =
    | StatsError(message: string)
    | StatsTables(data: seq<Dict>, synchronized: Value, latestConfig: seq<Dict>, networkInfo: seq<Dict>)

  datatype BasicStatsResult =
    | BasicStatsError(message: string)
    | BasicStats(data: seq<Dict>, synchronized: Value)

  /** The result of the current version: the node table, the peer table and the network table,
      each with "N/A" for None, the network table without duplicate rows. */
  function StatisticsTables(stats: Dict): StatsResult {
    if !HasKey(stats, "statistics") then StatsError(InvalidStatistics)
    else
      var nodes := Nodes(stats);
      StatsTables(
        FillNaAll(StatRows(nodes)),
        GetOr(stats, "synchronized", Bool(false)),
        FillNaAll(ConfigRowsAll(nodes)),
        FillNaAll(Dedupe(NetworkRowsAll(nodes))))
  }

  /** The result of the two older versions: the node rows as they are, and the sync flag. */
  function BasicStatistics(stats: Dict): BasicStatsResult {
    if !HasKey(stats, "statistics") then BasicStatsError(InvalidStatistics)
    else BasicStats(StatRows(Nodes(stats)), GetOr(stats, "synchronized", Bool(false)))
  }

  // ---------------------------------------------------------------------------------------------
  // Properties

  /** A column whose field the node lacks reads "N/A"; a present field is copied as it is. */
  lemma StatRowField(node: Dict, i: nat)
    requires i < |NodeColumns|
    ensures StatRow(node)[i].0 == NodeColumns[i].0
    ensures !Present(node, NodeColumns[i].1) ==> StatRow(node)[i].1 == NA
    ensures NodeColumns[i].1.Top? && HasKey(node, NodeColumns[i].1.key) ==>
      Some(StatRow(node)[i].1) == Get(node, NodeColumns[i].1.key)
    ensures NodeColumns[i].1.Raft? && HasKey(ObjectOr(node, "raft"), NodeColumns[i].1.key) ==>
      Some(StatRow(node)[i].1) == Get(ObjectOr(node, "raft"), NodeColumns[i].1.key)
  {
  }

  /** A row of a filled table is the filled form of a row of the table it was made from. */
  lemma FillNaAllMembers(rows: seq<Dict>, x: Dict)
    ensures x in FillNaAll(rows) <==> exists y :: y in rows && x == FillNa(y)
  {
    var filled := FillNaAll(rows);
    if x in filled {
      var i :| 0 <= i < |filled| && filled[i] == x;
      assert rows[i] in rows;
    }
    if exists y :: y in rows && x == FillNa(y) {
      var y :| y in rows && x == FillNa(y);
      var i :| 0 <= i < |rows| && rows[i] == y;
      assert filled[i] == x;
    }
  }

  /** The older versions: an error exactly when "statistics" is missing; otherwise one row per
      node, in order, every row with the 25 columns, and "synchronized" False when absent. */
  lemma BasicStatisticsShape(stats: Dict)
    ensures BasicStatistics(stats).BasicStatsError? <==> !HasKey(stats, "statistics")
    ensures BasicStatistics(stats).BasicStatsError? ==> BasicStatistics(stats).message == InvalidStatistics
    ensures BasicStatistics(stats).BasicStats? ==>
      |BasicStatistics(stats).data| == |Nodes(stats)| &&
      (forall i :: 0 <= i < |Nodes(stats)| ==> Keys(BasicStatistics(stats).data[i]) == ColumnNames()) &&
      (!HasKey(stats, "synchronized") ==> BasicStatistics(stats).synchronized == Bool(false))
  {
  }

  /** The peer table has one row per peer of every node. */
  lemma {:induction false} ConfigRowsCount(nodes: seq<Value>)
    ensures |ConfigRowsAll(nodes)| == NumConfigs(nodes)
  {
    if nodes != [] {
      var front, last := nodes[..|nodes| - 1], nodes[|nodes| - 1];
      ConfigRowsCount(front);
      assert ConfigRowsAll(nodes) == ConfigRowsAll(front) + NodeConfigRowsOf(last);
      assert |NodeConfigRowsOf(last)| == |Configs(FieldsOf(last))|;
      assert NumConfigs(nodes) == NumConfigs(front) + |Configs(FieldsOf(last))|;
    }
  }

  /** Every network row comes from a peer of some node whose address has a ':', and every such
      peer contributes its row. */
  lemma NetworkRowsAllMembers(nodes: seq<Value>, row: Dict)
    ensures row in NetworkRowsAll(nodes) <==>
      exists v, c :: v in nodes && c in Configs(FieldsOf(v)) && NetworkRowOf(FieldsOf(c)) == Some(row)
  {
    FlatMapMembers(nodes, NodeNetworkRows, row);
    forall v ensures row in NodeNetworkRows(v) <==> exists c :: c in Configs(FieldsOf(v)) && row in PeerNetworkRows(c) {
      FlatMapMembers(Configs(FieldsOf(v)), PeerNetworkRows, row);
    }
  }

  // ---------------------------------------------------------------------------------------------
  // The loops

  lemma StatStep(nodes: seq<Value>, n: nat)
    requires n < |nodes|
    ensures StatRows(nodes[..n + 1]) == StatRows(nodes[..n]) + [StatRow(FieldsOf(nodes[n]))]
  {
  }

  lemma NodeStep(nodes: seq<Value>, n: nat)
    requires n < |nodes|
    ensures ConfigRowsAll(nodes[..n + 1]) == ConfigRowsAll(nodes[..n]) + ConfigRowsFrom(FieldsOf(nodes[n]), Configs(FieldsOf(nodes[n])))
    ensures NetworkRowsAll(nodes[..n + 1]) == NetworkRowsAll(nodes[..n]) + NetworkRowsFrom(Configs(FieldsOf(nodes[n])))
  {
    FlatMapStep(nodes, NodeConfigRowsOf, n);
    FlatMapStep(nodes, NodeNetworkRows, n);
  }

  lemma ConfigRowsStep(acc: seq<Dict>, node: Dict, cs: seq<Value>, j: nat)
    requires j < |cs|
    ensures acc + ConfigRowsFrom(node, cs[..j + 1]) == (acc + ConfigRowsFrom(node, cs[..j])) + [ConfigRow(node, FieldsOf(cs[j]))]
  {
    MapSeqStep(cs, ConfigRowMaker(node), j);
    AppendStep(acc, ConfigRowsFrom(node, cs[..j]), ConfigRowsFrom(node, cs[..j + 1]), [ConfigRow(node, FieldsOf(cs[j]))]);
  }

  lemma NetworkRowsStep(acc: seq<Dict>, cs: seq<Value>, j: nat)
    requires j < |cs|
    ensures acc + NetworkRowsFrom(cs[..j + 1]) == (acc + NetworkRowsFrom(cs[..j])) + PeerNetworkRows(cs[j])
  {
    FlatMapStep(cs, PeerNetworkRows, j);
    AppendStep(acc, NetworkRowsFrom(cs[..j]), NetworkRowsFrom(cs[..j + 1]), PeerNetworkRows(cs[j]));
  }

  lemma PeerNetworkRowsOfShaped(c: Value)
    requires ConfigShaped(c)
    ensures Address(c.fields).Str?
    ensures PeerNetworkRows(c) ==
      var a := Address(c.fields).s;
      if ':' in a then
        [[("Pod", GetOr(c.fields, "id", NA)), ("IP", Str(SplitAtLastColon(a).0)), ("Port", Str(SplitAtLastColon(a).1))]]
      else []
  {
  }

  /** The loop over one node's latest configuration: a peer row for every peer, and a network row
      for every peer whose address contains ':'. */
  method NodeConfigRows(node: Dict, latestConfig: seq<Value>, configRows: seq<Dict>, networkRows: seq<Dict>)
    returns (configRows': seq<Dict>, networkRows': seq<Dict>)
    requires forall c :: c in latestConfig ==> ConfigShaped(c)
    ensures configRows' == configRows + ConfigRowsFrom(node, latestConfig)
    ensures networkRows' == networkRows + NetworkRowsFrom(latestConfig)
  {
    configRows', networkRows' := configRows, networkRows;
    for j := 0 to |latestConfig|
      invariant configRows' == configRows + ConfigRowsFrom(node, latestConfig[..j])
      invariant networkRows' == networkRows + NetworkRowsFrom(latestConfig[..j])
    {
      assert latestConfig[j] in latestConfig;
      var config := latestConfig[j].fields;
      var address := GetOr(config, "address", NA);
      NetworkRowsStep(networkRows, latestConfig, j);
      ConfigRowsStep(configRows, node, latestConfig, j);
      PeerNetworkRowsOfShaped(latestConfig[j]);
      if ':' in address.s {
        var parts := SplitAtLastColon(address.s);
        networkRows' := networkRows' + [[("Pod", GetOr(config, "id", NA)), ("IP", Str(parts.0)), ("Port", Str(parts.1))]];
      }
      var configData := ConfigRow(node, config);
      configRows' := configRows' + [configData];
    }
    assert latestConfig[..|latestConfig|] == latestConfig;
  }

  /** process_statistics of the current version. */
  method ProcessStatistics(stats: Dict) returns (r: StatsResult)
    requires StatsShaped(stats)
    ensures r == StatisticsTables(stats)
    ensures r.StatsError? <==> !HasKey(stats, "statistics")
    ensures r.StatsTables? ==> |r.data| == |Nodes(stats)|
    ensures r.StatsTables? ==> r.networkInfo == FillNaAll(Dedupe(NetworkRowsAll(Nodes(stats))))
    ensures r.StatsTables? ==> forall x :: x in r.networkInfo <==> exists y :: y in NetworkRowsAll(Nodes(stats)) && x == FillNa(y)
  {
    if !HasKey(stats, "statistics") {
      return StatsError(InvalidStatistics);
    }
    var flattenedData: seq<Dict> := [];
    var latestConfigData: seq<Dict> := [];
    var networkInfo: seq<Dict> := [];
    var synchronized := GetOr(stats, "synchronized", Bool(false));
    var nodes := Nodes(stats);
    NodesShaped(stats);
    for n := 0 to |nodes|
      invariant flattenedData == StatRows(nodes[..n])
      invariant latestConfigData == ConfigRowsAll(nodes[..n])
      invariant networkInfo == NetworkRowsAll(nodes[..n])
    {
      assert nodes[n] in nodes;
      var node := nodes[n].fields;
      StatStep(nodes, n);
      NodeStep(nodes, n);
      flattenedData := flattenedData + [StatRow(node)];
      latestConfigData, networkInfo := NodeConfigRows(node, Configs(node), latestConfigData, networkInfo);
    }
    assert nodes[..|nodes|] == nodes;
    r := StatsTables(FillNaAll(flattenedData), synchronized, FillNaAll(latestConfigData), FillNaAll(Dedupe(networkInfo)));
    forall x ensures x in r.networkInfo <==> exists y :: y in networkInfo && x == FillNa(y) {
      FillNaAllMembers(Dedupe(networkInfo), x);
    }
  }

  /** process_statistics of the two older versions (the same code in both). */
  method ProcessStatisticsBasic(stats: Dict) returns (r: BasicStatsResult)
    requires BasicStatsShaped(stats)
    ensures r == BasicStatistics(stats)
  {
    if !HasKey(stats, "statistics") {
      return BasicStatsError(InvalidStatistics);
    }
    var flattenedData: seq<Dict> := [];
    var nodes := Nodes(stats);
    NodesShaped(stats);
    for n := 0 to |nodes|
      invariant flattenedData == StatRows(nodes[..n])
    {
      StatStep(nodes, n);
      assert nodes[n] in nodes;
      flattenedData := flattenedData + [StatRow(nodes[n].fields)];
    }
    assert nodes[..|nodes|] == nodes;
    r := BasicStats(flattenedData, GetOr(stats, "synchronized", Bool(false)));
  }
}
