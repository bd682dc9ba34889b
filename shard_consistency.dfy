/** The replica-consistency detector (check_shard_consistency): observations (node, object count)
    are grouped by (collection, shard name); every member of a group whose counts are not all equal
    is reported, groups in the order their key was first seen, members in node-traversal order;
    no report at all is None. */
module ShardConsistency {
  import opened Basics
  import opened Inventory

  /** One row of the report: Collection, Shard, Node, Object Count. */
  datatype Row = Row(collection: string, shard: string, node: string, objectCount: int)

  /** The grouping key (collection, shard name). */
  datatype ShardKey = ShardKey(collection: string, shard: string)

  /** A (node name, object count) pair as the source appends it to a group. */
  datatype Member = Member(node: string, objectCount: int)

  function KeyOf(r: Row): ShardKey {
    ShardKey(r.collection, r.shard)
  }

  function NodeObservations(node: Node): (rows: seq<Row>)
    ensures |rows| == |node.shards|
  {
    seq(|node.shards|, j requires 0 <= j < |node.shards| =>
      Row(node.shards[j].collection, node.shards[j].name, node.name, node.shards[j].objectCount))
  }

  /** Every (node, shard) pair as a row, nodes in order and each node's shards in order. */
  function Observations(nodes: seq<Node>): seq<Row> {
    if nodes == [] then []
    else Observations(nodes[..|nodes| - 1]) + NodeObservations(nodes[|nodes| - 1])
  }

  function KeySeq(obs: seq<Row>): (ks: seq<ShardKey>)
    ensures |ks| == |obs|
  {
    seq(|obs|, i requires 0 <= i < |obs| => KeyOf(obs[i]))
  }

  /** The group of key k: the observations with that key, in traversal order. */
  function RowsOf(obs: seq<Row>, k: ShardKey): (g: seq<Row>)
    ensures forall r :: r in g <==> r in obs && KeyOf(r) == k
  {
    if obs == [] then []
    else
      var t, r := obs[..|obs| - 1], obs[|obs| - 1];
      assert forall x :: x in obs <==> x in t || x == r by { assert obs == t + [r]; }
      if KeyOf(r) == k then RowsOf(t, k) + [r] else RowsOf(t, k)
  }

  /** The distinct object counts of a group (Python set(object_counts)). */
  function Counts(rows: seq<Row>): set<int> {
    set r | r in rows :: r.objectCount
  }

  /** The counts of a group are not all equal. */
  predicate Disagree(rows: seq<Row>) {
    |Counts(rows)| > 1
  }

  /** The rows reported for the keys in `keys`, one group after another. */
  function ReportFor(keys: seq<ShardKey>, obs: seq<Row>): seq<Row> {
    if keys == [] then []
    else
      var g := RowsOf(obs, keys[|keys| - 1]);
      ReportFor(keys[..|keys| - 1], obs) + (if Disagree(g) then g else [])
  }

  /** The inconsistency report: groups taken in first-seen key order. */
  function Report(obs: seq<Row>): seq<Row> {
    ReportFor(Dedupe(KeySeq(obs)), obs)
  }

  /** What check_shard_consistency returns: None when nothing is reported. */
  function Verdict(obs: seq<Row>): Option<seq<Row>> {
    if Report(obs) == [] then None else Some(Report(obs))
  }

  function MembersOf(rows: seq<Row>): (ms: seq<Member>)
    ensures |ms| == |rows|
  {
    seq(|rows|, i requires 0 <= i < |rows| => Member(rows[i].node, rows[i].objectCount))
  }

  function RowsFromMembers(k: ShardKey, ms: seq<Member>): (rows: seq<Row>)
    ensures |rows| == |ms|
  {
    seq(|ms|, i requires 0 <= i < |ms| => Row(k.collection, k.shard, ms[i].node, ms[i].objectCount))
  }

  // ---------------------------------------------------------------------------------------------
  // Helper facts about groups

  lemma RowsOfAppend(obs: seq<Row>, r: Row, k: ShardKey)
    ensures RowsOf(obs + [r], k) == if KeyOf(r) == k then RowsOf(obs, k) + [r] else RowsOf(obs, k)
  {
    assert (obs + [r])[..|obs|] == obs;
  }

  lemma {:induction false} RowsOfConcat(a: seq<Row>, b: seq<Row>, k: ShardKey)
    ensures RowsOf(a + b, k) == RowsOf(a, k) + RowsOf(b, k)
    decreases |b|
  {
    if b == [] {
      assert a + b == a;
    } else {
      var c, r := b[..|b| - 1], b[|b| - 1];
      assert b == c + [r];
      assert a + b == (a + c) + [r];
      RowsOfConcat(a, c, k);
      RowsOfAppend(a + c, r, k);
      RowsOfAppend(c, r, k);
    }
  }

  lemma {:induction false} RowsOfSingleKey(rows: seq<Row>, k: ShardKey, k': ShardKey)
    requires forall r :: r in rows ==> KeyOf(r) == k'
    ensures RowsOf(rows, k) == if k == k' then rows else []
  {
    if rows != [] {
      var t := rows[..|rows| - 1];
      assert rows == t + [rows[|rows| - 1]];
      RowsOfSingleKey(t, k, k');
    }
  }

  /** Filtering the report of `keys` by one key. */
  lemma {:induction false} RowsOfReportFor(keys: seq<ShardKey>, obs: seq<Row>, k: ShardKey)
    requires NoDuplicates(keys)
    ensures RowsOf(ReportFor(keys, obs), k) ==
      if k in keys && Disagree(RowsOf(obs, k)) then RowsOf(obs, k) else []
  {
    if keys != [] {
      var ks, last := keys[..|keys| - 1], keys[|keys| - 1];
      assert keys == ks + [last];
      RowsOfReportFor(ks, obs, k);
      var g := RowsOf(obs, last);
      RowsOfConcat(ReportFor(ks, obs), if Disagree(g) then g else [], k);
      RowsOfSingleKey(if Disagree(g) then g else [], k, last);
      assert last !in ks;
    }
  }

  lemma EmptyGroupAgrees(rows: seq<Row>)
    requires |rows| <= 1
    ensures !Disagree(rows)
  {
    if rows != [] {
      assert Counts(rows) == {rows[0].objectCount};
    }
  }

  // ---------------------------------------------------------------------------------------------
  // Properties of the report

  /** For every key, the report holds exactly that key's observations, in traversal order, when
      their counts disagree, and none of them otherwise: every member of an inconsistent group is
      reported, not only the outliers. */
  lemma ReportRowsOfKey(obs: seq<Row>, k: ShardKey)
    ensures RowsOf(Report(obs), k) == if Disagree(RowsOf(obs, k)) then RowsOf(obs, k) else []
  {
    RowsOfReportFor(Dedupe(KeySeq(obs)), obs, k);
    if Disagree(RowsOf(obs, k)) {
      var r :| r in RowsOf(obs, k);
      var i :| 0 <= i < |obs| && obs[i] == r;
      assert KeySeq(obs)[i] == k;
    }
  }

  /** Nothing is reported exactly when every group has a single distinct object count. */
  lemma ReportEmptyIffAllAgree(obs: seq<Row>)
    ensures Report(obs) == [] <==> forall k :: !Disagree(RowsOf(obs, k))
  {
    if Report(obs) == [] {
      forall k ensures !Disagree(RowsOf(obs, k)) {
        ReportRowsOfKey(obs, k);
        EmptyGroupAgrees([]);
      }
    } else {
      var r := Report(obs)[0];
      ReportRowsOfKey(obs, KeyOf(r));
      assert r in RowsOf(Report(obs), KeyOf(r));
    }
  }

  /** A (collection, shard) key observed at most once, e.g. on a single node, is never reported,
      whatever its object count. */
  lemma SingleObservationNeverReported(obs: seq<Row>, k: ShardKey)
    requires |RowsOf(obs, k)| <= 1
    ensures forall r :: r in Report(obs) ==> KeyOf(r) != k
  {
    ReportRowsOfKey(obs, k);
    EmptyGroupAgrees(RowsOf(obs, k));
  }

  /** Every reported row is an observation whose group disagrees. */
  lemma ReportedRowsAreObserved(obs: seq<Row>, r: Row)
    ensures r in Report(obs) <==> r in obs && Disagree(RowsOf(obs, KeyOf(r)))
  {
    ReportRowsOfKey(obs, KeyOf(r));
  }

  // ---------------------------------------------------------------------------------------------
  // The detector as the source writes it

  lemma CountsOfMembers(rows: seq<Row>)
    ensures (set m | m in MembersOf(rows) :: m.objectCount) == Counts(rows)
  {
    var ms := MembersOf(rows);
    forall c | c in Counts(rows) ensures c in set m | m in ms :: m.objectCount {
      var r :| r in rows && r.objectCount == c;
      var i :| 0 <= i < |rows| && rows[i] == r;
      assert ms[i] in ms;
    }
  }

  lemma MembersRoundTrip(rows: seq<Row>, k: ShardKey)
    requires forall r :: r in rows ==> KeyOf(r) == k
    ensures RowsFromMembers(k, MembersOf(rows)) == rows
  {
    forall i | 0 <= i < |rows| ensures RowsFromMembers(k, MembersOf(rows))[i] == rows[i] {
      assert rows[i] in rows;
    }
  }

  lemma ObservationsAppend(nodes: seq<Node>, n: nat)
    requires n < |nodes|
    ensures Observations(nodes[..n + 1]) == Observations(nodes[..n]) + NodeObservations(nodes[n])
  {
    assert nodes[..n + 1][..n] == nodes[..n];
  }

  /** The groups dict after traversing obs: its keys in insertion order, each key's members. */
  ghost predicate Grouped(obs: seq<Row>, keys: seq<ShardKey>, shardData: map<ShardKey, seq<Member>>) {
    && keys == Dedupe(KeySeq(obs))
    && (forall k :: k in shardData <==> k in keys)
    && (forall k :: k in shardData ==> shardData[k] == MembersOf(RowsOf(obs, k)))
  }

  lemma KeysAppend(obs: seq<Row>, row: Row)
    ensures Dedupe(KeySeq(obs + [row])) ==
      var ks := Dedupe(KeySeq(obs));
      if KeyOf(row) in ks then ks else ks + [KeyOf(row)]
  {
    assert KeySeq(obs + [row]) == KeySeq(obs) + [KeyOf(row)];
    assert (KeySeq(obs) + [KeyOf(row)])[..|obs|] == KeySeq(obs);
  }

  lemma UnseenKeyHasNoRows(obs: seq<Row>, k: ShardKey)
    requires k !in Dedupe(KeySeq(obs))
    ensures RowsOf(obs, k) == []
  {
    forall i | 0 <= i < |obs| ensures KeyOf(obs[i]) != k {
      assert KeySeq(obs)[i] in KeySeq(obs);
    }
    assert forall r :: r in RowsOf(obs, k) ==> false;
  }

  lemma MembersAppend(rows: seq<Row>, r: Row)
    ensures MembersOf(rows + [r]) == MembersOf(rows) + [Member(r.node, r.objectCount)]
  {
  }

  /** One `shard_data[shard_key].append((node.name, shard.object_count))` step. */
  lemma GroupedAppend(obs: seq<Row>, keys: seq<ShardKey>, shardData: map<ShardKey, seq<Member>>, row: Row)
    requires Grouped(obs, keys, shardData)
    ensures var key := KeyOf(row);
      Grouped(obs + [row],
        if key in shardData then keys else keys + [key],
        shardData[key := (if key in shardData then shardData[key] else []) + [Member(row.node, row.objectCount)]])
  {
    var key := KeyOf(row);
    var keys' := if key in shardData then keys else keys + [key];
    var data' := shardData[key := (if key in shardData then shardData[key] else []) + [Member(row.node, row.objectCount)]];
    KeysAppend(obs, row);
    assert key in shardData <==> key in keys;
    if key !in keys {
      UnseenKeyHasNoRows(obs, key);
    }
    forall k | k in data' ensures data'[k] == MembersOf(RowsOf(obs + [row], k)) {
      RowsOfAppend(obs, row, k);
      if k == key {
        MembersAppend(RowsOf(obs, k), row);
      }
    }
    assert forall k :: k in data' <==> k in keys';
  }

  lemma RowsFromMembersStep(k: ShardKey, ms: seq<Member>, d: nat)
    requires d < |ms|
    ensures RowsFromMembers(k, ms[..d + 1]) ==
      RowsFromMembers(k, ms[..d]) + [Row(k.collection, k.shard, ms[d].node, ms[d].objectCount)]
  {
  }

  /** One pass of the emitting loop: the group of keys[i] is appended when its counts disagree. */
  lemma EmitGroup(keys: seq<ShardKey>, i: nat, obs: seq<Row>, details: seq<Member>)
    requires i < |keys| && details == MembersOf(RowsOf(obs, keys[i]))
    ensures ReportFor(keys[..i + 1], obs) == ReportFor(keys[..i], obs) +
      if |set m | m in details :: m.objectCount| > 1 then RowsFromMembers(keys[i], details) else []
  {
    CountsOfMembers(RowsOf(obs, keys[i]));
    MembersRoundTrip(RowsOf(obs, keys[i]), keys[i]);
    assert keys[..i + 1][..i] == keys[..i];
  }

  /** The first loop of check_shard_consistency: `shard_data = defaultdict(list)` filled with one
      (node name, object count) member per (node, shard), keys kept in insertion order. */
  method GroupByShard(nodes: seq<Node>) returns (keys: seq<ShardKey>, shardData: map<ShardKey, seq<Member>>)
    ensures Grouped(Observations(nodes), keys, shardData)
  {
    keys, shardData := [], map[];
    ghost var obs: seq<Row> := [];
    for n := 0 to |nodes|
      invariant obs == Observations(nodes[..n])
      invariant Grouped(obs, keys, shardData)
    {
      var node := nodes[n];
      ghost var before, nodeObs := obs, NodeObservations(node);
      for j := 0 to |node.shards|
        invariant obs == before + nodeObs[..j]
        invariant Grouped(obs, keys, shardData)
      {
        var shard := node.shards[j];
        var key := ShardKey(shard.collection, shard.name);
        ghost var row := Row(shard.collection, shard.name, node.name, shard.objectCount);
        GroupedAppend(obs, keys, shardData, row);
        var details := if key in shardData then shardData[key] else [];
        if key !in shardData {
          keys := keys + [key];
        }
        shardData := shardData[key := details + [Member(node.name, shard.objectCount)]];
        assert row == nodeObs[j];
        PrefixStep(before, nodeObs, j);
        obs := obs + [row];
      }
      assert nodeObs[..|node.shards|] == nodeObs;
      ObservationsAppend(nodes, n);
    }
    assert nodes[..|nodes|] == nodes;
  }

  /** The inner loop emitting one group: a report row per member, in order. */
  method AppendGroup(rows: seq<Row>, key: ShardKey, details: seq<Member>) returns (rows': seq<Row>)
    ensures rows' == rows + RowsFromMembers(key, details)
  {
    rows' := rows;
    for d := 0 to |details|
      invariant rows' == rows + RowsFromMembers(key, details[..d])
    {
      RowsFromMembersStep(key, details, d);
      rows' := rows' + [Row(key.collection, key.shard, details[d].node, details[d].objectCount)];
    }
    assert details[..|details|] == details;
  }

  /** check_shard_consistency: group the observations, then pass over the groups in insertion
      order emitting every member of each group whose counts disagree; None when nothing is. */
  method CheckShardConsistency(nodes: seq<Node>) returns (result: Option<seq<Row>>)
    ensures result == Verdict(Observations(nodes))
    ensures result.None? <==> forall k :: !Disagree(RowsOf(Observations(nodes), k))
  {
    var keys, shardData := GroupByShard(nodes);
    ghost var obs := Observations(nodes);
    var inconsistentShards: seq<Row> := [];
    for i := 0 to |keys|
      invariant inconsistentShards == ReportFor(keys[..i], obs)
    {
      var key := keys[i];
      var details := shardData[key];
      var objectCounts := set m: Member | m in details :: m.objectCount;
      EmitGroup(keys, i, obs, details);
      if |objectCounts| > 1 {
        inconsistentShards := AppendGroup(inconsistentShards, key, details);
      }
    }
    assert keys[..|keys|] == keys;

    ReportEmptyIffAllAgree(obs);
    if inconsistentShards != [] {
      result := Some(inconsistentShards);
    } else {
      result := None;
    }
  }
}
