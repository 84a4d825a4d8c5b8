/** The databases and replicas tables, as the transactions of services/metadata-service/grpc/server.go change them. */
module Metadata {
  import opened Prelude

  type Id = string

  datatype Status = Provisioning | Active | Failed | Deleting

  datatype Role = Leader | Follower

  /** `node == ""` is a NULL node_id. */
  datatype Row = Row(status: Status, node: string, endpoint: string, attempts: int)

  datatype Replica = Replica(database: Id, node: string, role: Role)

  datatype Tables = Tables(databases: map<Id, Row>, replicas: seq<Replica>)

  datatype Reply = Done | InvalidArgument | NotFound | Internal

  function ReplicasOf(replicas: seq<Replica>, id: Id): seq<Replica> {
    if replicas == [] then []
    else
      var front, last := replicas[..|replicas| - 1], replicas[|replicas| - 1];
      ReplicasOf(front, id) + if last.database == id then [last] else []
  }

  /** `DELETE FROM replicas WHERE database_id = id` */
  function Without(replicas: seq<Replica>, id: Id): seq<Replica> {
    if replicas == [] then []
    else
      var front, last := replicas[..|replicas| - 1], replicas[|replicas| - 1];
      Without(front, id) + if last.database == id then [] else [last]
  }

  function Inserted(t: Tables, id: Id, row: Row): Tables {
    Tables(t.databases[id := row], if row.node == "" then t.replicas else t.replicas + [Replica(id, row.node, Leader)])
  }

  /** An empty node leaves the node column and the replicas alone; a missing row rolls back. */
  function Updated(t: Tables, id: Id, status: Status, node: string, endpoint: string, attempts: int): Tables {
    if id !in t.databases then t
    else if node == "" then t.(databases := t.databases[id := Row(status, t.databases[id].node, endpoint, attempts)])
    else Tables(t.databases[id := Row(status, node, endpoint, attempts)],
                Without(t.replicas, id) + [Replica(id, node, Leader)])
  }

  function Deleted(t: Tables, id: Id): Tables {
    if id !in t.databases then t else Tables(t.databases - {id}, Without(t.replicas, id))
  }

  class Server {
    var databases: map<Id, Row>
    var replicas: seq<Replica>

    function State(): Tables
      reads this
    {
      Tables(databases, replicas)
    }

    constructor ()
      ensures State() == Tables(map[], [])
    {
      databases, replicas := map[], [];
    }

    /** `status` is `None` for an empty string; `id` is the key the database generates; `commits` is false when the
        transaction fails after its row check. */
    method CreateDatabaseRecord(
      name: string, cluster: string, status: Option<Status>, node: string, attempts: int, id: Id, commits: bool)
      returns (reply: Reply)
      requires id !in databases
      modifies this
      ensures reply == if name == "" || cluster == "" || status.None? then InvalidArgument
                       else if !commits then Internal else Done
      ensures State() ==
        if reply == Done then Inserted(old(State()), id, Row(status.value, node, "", attempts)) else old(State())
    {
      if name == "" || cluster == "" || status.None? { return InvalidArgument; }
      if !commits { return Internal; }
      databases := databases[id := Row(status.value, node, "", attempts)];
      if node != "" {
        replicas := replicas + [Replica(id, node, Leader)];
      }
      return Done;
    }

    method UpdateDatabaseStatus(
      id: Id, status: Option<Status>, node: string, endpoint: string, attempts: int, commits: bool)
      returns (reply: Reply)
      modifies this
      ensures reply == if id == "" || status.None? then InvalidArgument else if id !in old(databases) then NotFound
                       else if !commits then Internal else Done
      ensures State() ==
        if reply == Done then Updated(old(State()), id, status.value, node, endpoint, attempts) else old(State())
    {
      if id == "" || status.None? { return InvalidArgument; }
      if id !in databases { return NotFound; }
      if !commits { return Internal; }
      if node != "" {
        databases := databases[id := Row(status.value, node, endpoint, attempts)];
        DeleteReplicas(id);
        replicas := replicas + [Replica(id, node, Leader)];
      } else {
        databases := databases[id := Row(status.value, databases[id].node, endpoint, attempts)];
      }
      return Done;
    }

    method DeleteDatabaseRecord(id: Id, commits: bool) returns (reply: Reply)
      modifies this
      ensures reply == if id == "" then InvalidArgument else if id !in old(databases) then NotFound
                       else if !commits then Internal else Done
      ensures State() == if reply == Done then Deleted(old(State()), id) else old(State())
    {
      if id == "" { return InvalidArgument; }
      if id !in databases { return NotFound; }
      if !commits { return Internal; }
      DeleteReplicas(id);
      databases := databases - {id};
      return Done;
    }

    method DeleteReplicas(id: Id)
      modifies this`replicas
      ensures replicas == Without(old(replicas), id)
    {
      var kept := [];
      for i := 0 to |replicas|
        invariant replicas == old(replicas) && kept == Without(replicas[..i], id)
      {
        assert replicas[..i + 1][..i] == replicas[..i];
        if replicas[i].database != id { kept := kept + [replicas[i]]; }
      }
      assert replicas[..|replicas|] == replicas;
      replicas := kept;
    }
  }

  // ---- Consistency ----

  /** A row with a node has exactly one replica row, a leader on that node; a row without one has none; no other
      replicas. */
  ghost predicate Consistent(t: Tables) {
    && (forall id :: id in t.databases ==>
          ReplicasOf(t.replicas, id) ==
            if t.databases[id].node == "" then [] else [Replica(id, t.databases[id].node, Leader)])
    && (forall r :: r in t.replicas ==> r.database in t.databases)
  }

  lemma {:induction false} WithoutReplicas(replicas: seq<Replica>, id: Id, other: Id)
    ensures ReplicasOf(Without(replicas, id), other) == if other == id then [] else ReplicasOf(replicas, other)
  {
    if replicas != [] {
      var front, last := replicas[..|replicas| - 1], replicas[|replicas| - 1];
      WithoutReplicas(front, id, other);
      if last.database != id {
        ReplicasOfSnoc(Without(front, id), last, other);
      } else {
        assert Without(replicas, id) == Without(front, id);
      }
    }
  }

  lemma ReplicasOfSnoc(replicas: seq<Replica>, r: Replica, id: Id)
    ensures ReplicasOf(replicas + [r], id) == ReplicasOf(replicas, id) + if r.database == id then [r] else []
  {
    assert (replicas + [r])[..|replicas|] == replicas;
  }

  lemma {:induction false} WithoutAre(replicas: seq<Replica>, id: Id)
    ensures forall r :: r in Without(replicas, id) <==> r in replicas && r.database != id
  {
    if replicas != [] {
      var front, last := replicas[..|replicas| - 1], replicas[|replicas| - 1];
      WithoutAre(front, id);
      assert replicas == front + [last];
    }
  }

  lemma {:induction false} NoReplicas(replicas: seq<Replica>, id: Id)
    requires forall r :: r in replicas ==> r.database != id
    ensures ReplicasOf(replicas, id) == []
  {
    if replicas != [] {
      var front, last := replicas[..|replicas| - 1], replicas[|replicas| - 1];
      assert last in replicas && forall r :: r in front ==> r in replicas;
      NoReplicas(front, id);
    }
  }

  lemma InsertKeeps(t: Tables, id: Id, row: Row)
    requires Consistent(t) && id !in t.databases
    ensures Consistent(Inserted(t, id, row))
  {
    NoReplicas(t.replicas, id);
    forall other | other in Inserted(t, id, row).databases
      ensures ReplicasOf(Inserted(t, id, row).replicas, other) ==
        var node := Inserted(t, id, row).databases[other].node;
        if node == "" then [] else [Replica(other, node, Leader)]
    {
      ReplicasOfSnoc(t.replicas, Replica(id, row.node, Leader), other);
    }
  }

  lemma UpdateKeeps(t: Tables, id: Id, status: Status, node: string, endpoint: string, attempts: int)
    requires Consistent(t)
    ensures Consistent(Updated(t, id, status, node, endpoint, attempts))
  {
    hide Without, ReplicasOf;
    if id !in t.databases || node == "" { return; }
    var after := Updated(t, id, status, node, endpoint, attempts);
    WithoutAre(t.replicas, id);
    forall other | other in after.databases
      ensures ReplicasOf(after.replicas, other) ==
        if after.databases[other].node == "" then [] else [Replica(other, after.databases[other].node, Leader)]
    {
      WithoutReplicas(t.replicas, id, other);
      ReplicasOfSnoc(Without(t.replicas, id), Replica(id, node, Leader), other);
    }
  }

  lemma DeleteKeeps(t: Tables, id: Id)
    requires Consistent(t)
    ensures Consistent(Deleted(t, id))
  {
    WithoutAre(t.replicas, id);
    forall other | other in Deleted(t, id).databases
      ensures ReplicasOf(Deleted(t, id).replicas, other) == ReplicasOf(t.replicas, other)
    {
      WithoutReplicas(t.replicas, id, other);
    }
  }

  // ---- Each transaction touches one database ----

  /** Presence, row and replicas of database `id` are the same in both. */
  ghost predicate SameDatabase(t: Tables, after: Tables, id: Id) {
    && (id in t.databases <==> id in after.databases)
    && (id in t.databases ==> t.databases[id] == after.databases[id])
    && (forall role, node :: Replica(id, node, role) in t.replicas <==> Replica(id, node, role) in after.replicas)
    && ReplicasOf(t.replicas, id) == ReplicasOf(after.replicas, id)
  }

  /** Creation adds this row, with one leader replica if it has a node, and leaves every other database alone. */
  lemma InsertEffect(t: Tables, id: Id, row: Row)
    requires Consistent(t) && id !in t.databases
    ensures var after := Inserted(t, id, row);
      && id in after.databases && after.databases[id] == row
      && ReplicasOf(after.replicas, id) == (if row.node == "" then [] else [Replica(id, row.node, Leader)])
      && forall other :: other != id ==> SameDatabase(t, after, other)
  {
    NoReplicas(t.replicas, id);
    ReplicasOfSnoc(t.replicas, Replica(id, row.node, Leader), id);
    forall other | other != id ensures SameDatabase(t, Inserted(t, id, row), other) {
      ReplicasOfSnoc(t.replicas, Replica(id, row.node, Leader), other);
    }
  }

  /** An update writes status, endpoint and attempts of an existing row; a node, if given, becomes the row's node and
      its only replica. Every other database is left alone. */
  lemma UpdateEffect(t: Tables, id: Id, status: Status, node: string, endpoint: string, attempts: int)
    requires Consistent(t)
    ensures var after := Updated(t, id, status, node, endpoint, attempts);
      && (id in after.databases <==> id in t.databases)
      && (id in t.databases ==>
            var row := after.databases[id];
            && row.status == status && row.endpoint == endpoint && row.attempts == attempts
            && row.node == (if node == "" then t.databases[id].node else node)
            && ReplicasOf(after.replicas, id) == if row.node == "" then [] else [Replica(id, row.node, Leader)])
      && forall other :: other != id ==> SameDatabase(t, after, other)
  {
    hide Without, ReplicasOf;
    var after := Updated(t, id, status, node, endpoint, attempts);
    UpdateKeeps(t, id, status, node, endpoint, attempts);
    WithoutAre(t.replicas, id);
    forall other | other != id ensures SameDatabase(t, after, other) {
      WithoutReplicas(t.replicas, id, other);
      ReplicasOfSnoc(Without(t.replicas, id), Replica(id, node, Leader), other);
    }
  }

  /** A delete removes the row and its replicas, and leaves every other database alone. */
  lemma DeleteEffect(t: Tables, id: Id)
    requires Consistent(t)
    ensures var after := Deleted(t, id);
      && id !in after.databases && ReplicasOf(after.replicas, id) == []
      && forall other :: other != id ==> SameDatabase(t, after, other)
  {
    hide Without, ReplicasOf;
    WithoutAre(t.replicas, id);
    WithoutReplicas(t.replicas, id, id);
    AbsentHasNone(t, id);
    forall other | other != id ensures SameDatabase(t, Deleted(t, id), other) {
      WithoutReplicas(t.replicas, id, other);
    }
  }

  lemma AbsentHasNone(t: Tables, id: Id)
    requires Consistent(t)
    ensures id !in t.databases ==> ReplicasOf(t.replicas, id) == []
  {
    if id !in t.databases { NoReplicas(t.replicas, id); }
  }
}
