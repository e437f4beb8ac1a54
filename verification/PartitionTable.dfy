/** `partitionTable` of internal/cluster/partition_service.go: partition owners, replaced as a
    whole by versioned updates that arrive on any connection. */
module PartitionTables {
  import opened Wrappers
  import opened Members

  type PartitionId = int
  type Pair = (Uuid, seq<PartitionId>)
  type Owners = map<PartitionId, Uuid>

  datatype Table = Table(partitions: Owners, version: int, connection: int)

  const Empty := Table(map[], -1, 0)

  // ---- the operations on values ----

  function Assigned(m: Owners, uuid: Uuid, ids: seq<PartitionId>): Owners {
    if ids == [] then m else Assigned(m, uuid, ids[..|ids| - 1])[ids[|ids| - 1] := uuid]
  }

  /** The owners listed in an update; a partition listed twice goes to the later pair. */
  function Flattened(pairs: seq<Pair>): Owners {
    if pairs == [] then map[] else Assigned(Flattened(pairs[..|pairs| - 1]), pairs[|pairs| - 1].0, pairs[|pairs| - 1].1)
  }

  predicate Stale(t: Table, version: int, connection: int) {
    t.connection == connection && version <= t.version
  }

  /** An empty or stale update is refused; one that changes nothing is not recorded. */
  function Updated(t: Table, pairs: seq<Pair>, version: int, connection: int): Table {
    if pairs == [] || Stale(t, version, connection) || t.partitions == Flattened(pairs) then t
    else Table(Flattened(pairs), version, connection)
  }

  // ---- runs ----

  datatype Op = UpdateOp(pairs: seq<Pair>, version: int, connection: int) | ResetOp

  function Apply(t: Table, op: Op): Table {
    match op
    case UpdateOp(pairs, version, connection) => Updated(t, pairs, version, connection)
    case ResetOp => Empty
  }

  function RunAll(ops: seq<Op>): Table {
    if ops == [] then Empty else Apply(RunAll(ops[..|ops| - 1]), ops[|ops| - 1])
  }

  /** What the table should be: the flattening of the last non-empty update since the last
      reset. */
  function LastUpdate(ops: seq<Op>): Owners {
    if ops == [] then map[]
    else match ops[|ops| - 1]
      case ResetOp => map[]
      case UpdateOp(pairs, _, _) => if pairs == [] then LastUpdate(ops[..|ops| - 1]) else Flattened(pairs)
  }

  /** An update that is not refused as empty. */
  predicate Counts(op: Op) {
    op.UpdateOp? && op.pairs != []
  }

  /** Each connection's non-empty updates carry strictly increasing versions above -1. */
  ghost predicate Increasing(ops: seq<Op>) {
    && (forall i :: 0 <= i < |ops| && Counts(ops[i]) ==> ops[i].version > -1)
    && (forall i, j :: 0 <= i < j < |ops| && Counts(ops[i]) && Counts(ops[j]) ==>
          ops[i].connection == ops[j].connection ==> ops[i].version < ops[j].version)
  }

  /** The recorded version and connection are those of some earlier update, or initial. */
  ghost predicate Recorded(ops: seq<Op>, t: Table) {
    || (t.version == -1 && t.connection == 0)
    || exists i :: 0 <= i < |ops| && Counts(ops[i]) && ops[i].version == t.version && ops[i].connection == t.connection
  }

  /** An empty update, and one on the recorded connection whose version is not newer, change
      nothing; any other one makes the table that of its pairs. */
  lemma UpdateMeaning(t: Table, pairs: seq<Pair>, version: int, connection: int, p: PartitionId)
    ensures pairs == [] || (connection == t.connection && version <= t.version) ==>
              Updated(t, pairs, version, connection) == t
    ensures pairs != [] && (connection != t.connection || version > t.version) ==>
              var owners := Updated(t, pairs, version, connection).partitions;
              LastOwner(pairs, p) == if p in owners then Some(owners[p]) else None
    ensures
      var t' := Updated(t, pairs, version, connection);
      t'.partitions != t.partitions ==> t'.version == version && t'.connection == connection
  {
    FlattenedMeaning(pairs, p);
  }

  lemma {:induction false} RunRecords(ops: seq<Op>)
    ensures Recorded(ops, RunAll(ops))
  {
    if ops != [] {
      var before, n := ops[..|ops| - 1], |ops| - 1;
      RunRecords(before);
      var t, t' := RunAll(before), RunAll(ops);
      if t' == t && !(t.version == -1 && t.connection == 0) {
        var i :| 0 <= i < |before| && Counts(before[i]) && before[i].version == t.version &&
            before[i].connection == t.connection;
        assert ops[i] == before[i];
      } else if ops[n].UpdateOp? && t' != t {
        assert ops[n].version == t'.version && ops[n].connection == t'.connection;
      }
    }
  }

  /** With increasing versions no update is ever mistaken for stale: after any interleaving
      of updates from any connections and resets, the table is the last non-empty update
      since the last reset, although updates equal to the table go unrecorded. */
  lemma {:induction false} TableIsLastUpdate(ops: seq<Op>)
    requires Increasing(ops)
    ensures RunAll(ops).partitions == LastUpdate(ops)
  {
    if ops != [] {
      var before, n := ops[..|ops| - 1], |ops| - 1;
      TableIsLastUpdate(before);
      RunRecords(before);
      var t := RunAll(before);
      if ops[n].UpdateOp? && ops[n].pairs != [] && !(t.version == -1 && t.connection == 0) {
        var i :| 0 <= i < |before| && Counts(before[i]) && before[i].version == t.version &&
            before[i].connection == t.connection;
        assert ops[i] == before[i];
        assert !Stale(t, ops[n].version, ops[n].connection);
      }
    }
  }

  /** Whatever the versions, the recorded one never falls while the recorded connection
      stays the same and there is no reset. */
  lemma {:induction false} VersionNeverFalls(ops: seq<Op>, j: nat)
    requires j <= |ops|
    requires forall i :: j <= i < |ops| ==> ops[i].UpdateOp?
    requires forall i :: j <= i <= |ops| ==> RunAll(ops[..i]).connection == RunAll(ops[..j]).connection
    ensures RunAll(ops[..j]).version <= RunAll(ops).version
    decreases |ops|
  {
    if j == |ops| {
      assert ops[..j] == ops;
    } else {
      var before := ops[..|ops| - 1];
      assert forall i :: 0 <= i <= |before| ==> before[..i] == ops[..i];
      VersionNeverFalls(before, j);
      assert ops[..|ops|] == ops && before[..|before|] == before;
      assert before[..j] == ops[..j];
      assert RunAll(ops[..|ops|]).connection == RunAll(ops[..j]).connection == RunAll(ops[..|before|]).connection;
    }
  }

  // ---- the table itself ----

  class PartitionTable {
    var partitions: Owners
    var connectionId: int
    var partitionStateVersion: int

    function State(): Table
      reads this
    {
      Table(partitions, partitionStateVersion, connectionId)
    }

    constructor ()
      ensures State() == Empty
    {
      partitions, connectionId, partitionStateVersion := map[], 0, -1;
    }

    method Update(pairs: seq<Pair>, version: int, connection: int) returns (applied: bool)
      modifies this
      ensures State() == Updated(old(State()), pairs, version, connection)
      ensures applied <==> partitions != old(partitions)
    {
      if |pairs| == 0 || (connectionId == connection && version <= partitionStateVersion) {
        return false;
      }
      var newPartitions := map[];
      for i := 0 to |pairs|
        invariant newPartitions == Flattened(pairs[..i])
      {
        var (uuid, ids) := pairs[i];
        assert pairs[..i + 1][..i] == pairs[..i];
        for j := 0 to |ids|
          invariant newPartitions == Assigned(Flattened(pairs[..i]), uuid, ids[..j])
        {
          assert ids[..j + 1][..j] == ids[..j];
          newPartitions := newPartitions[ids[j] := uuid];
        }
        assert ids[..|ids|] == ids;
      }
      assert pairs[..|pairs|] == pairs;
      if partitions == newPartitions {
        return false;
      }
      partitions := newPartitions;
      partitionStateVersion := version;
      connectionId := connection;
      return true;
    }

    method Reset()
      modifies this
      ensures State() == Empty
    {
      partitionStateVersion := -1;
      partitions := map[];
      connectionId := 0;
    }
  }

  lemma {:induction false} AssignedMeaning(m: Owners, uuid: Uuid, ids: seq<PartitionId>, p: PartitionId)
    ensures p in Assigned(m, uuid, ids) <==> p in ids || p in m
    ensures p in ids ==> Assigned(m, uuid, ids)[p] == uuid
    ensures p in m && p !in ids ==> Assigned(m, uuid, ids)[p] == m[p]
  {
    if ids != [] {
      AssignedMeaning(m, uuid, ids[..|ids| - 1], p);
    }
  }

  /** The owner of a partition is the one of the last pair that lists it. */
  function LastOwner(pairs: seq<Pair>, p: PartitionId): Option<Uuid> {
    if pairs == [] then None
    else if p in pairs[|pairs| - 1].1 then Some(pairs[|pairs| - 1].0)
    else LastOwner(pairs[..|pairs| - 1], p)
  }

  lemma {:induction false} FlattenedMeaning(pairs: seq<Pair>, p: PartitionId)
    ensures LastOwner(pairs, p) == if p in Flattened(pairs) then Some(Flattened(pairs)[p]) else None
  {
    if pairs != [] {
      var before, last := pairs[..|pairs| - 1], pairs[|pairs| - 1];
      FlattenedMeaning(before, p);
      AssignedMeaning(Flattened(before), last.0, last.1, p);
    }
  }
}
