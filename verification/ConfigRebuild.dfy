/** The rebuild of `vpn_configs` with a node column, inside one real transaction. */
module ConfigRebuild {
  import opened Common

  /** The columns that are copied unchanged. */
  datatype Columns = Columns(owner: int, certDays: Option<int>, description: Option<string>,
                             created: Option<int>, updated: Option<int>)

  datatype OldRow = OldRow(id: int, client: string, vpn: string, columns: Columns)
  datatype NewRow = NewRow(id: int, node: int, client: string, vpn: string, columns: Columns)

  datatype Configs = Legacy(old_: seq<OldRow>) | Scoped(new_: seq<NewRow>)

  /** `vpn_configs`, and `vpn_configs_new`, which an older version may have left behind; the ids in
      `nodes` and `users`; `vpn_config_tag_links` as pairs of a config and a tag. */
  datatype Schema = Schema(configs: Option<Configs>, scratch: Option<seq<NewRow>>,
                           nodeIds: set<int>, userIds: set<int>, links: set<(int, int)>)

  // ----- statements -----

  datatype Stmt =
    | DropScratch | CreateScratch | Insert(row: NewRow) | DropConfigs | RenameScratch
    | CreateIndex(column: string)

  /** The table's primary key and its UNIQUE constraint. */
  predicate Clashes(rows: seq<NewRow>, r: NewRow)
  {
    exists i :: 0 <= i < |rows| && (rows[i].id == r.id || SameKey(rows[i], r))
  }

  predicate SameKey(a: NewRow, b: NewRow)
  {
    a.node == b.node && a.client == b.client && a.vpn == b.vpn
  }

  /** FOREIGN KEY(node_id) and FOREIGN KEY(owner_id), enforced on every connection. */
  predicate Refers(s: Schema, r: NewRow) { r.node in s.nodeIds && r.columns.owner in s.userIds }

  /** One statement; None where the database reports an error.  Dropping `vpn_configs` deletes its rows
      first, and the tag links go with them (ON DELETE CASCADE). */
  function Exec(s: Schema, st: Stmt): Option<Schema>
  {
    match st
    case DropScratch => Some(s.(scratch := None))
    case CreateScratch => if s.scratch.Some? then None else Some(s.(scratch := Some([])))
    case Insert(r) =>
      if s.scratch.None? || Clashes(s.scratch.value, r) || !Refers(s, r) then None
      else Some(s.(scratch := Some(s.scratch.value + [r])))
    case DropConfigs => if s.configs.None? then None else Some(s.(configs := None, links := {}))
    case RenameScratch =>
      if s.scratch.None? || s.configs.Some? then None
      else Some(s.(configs := Some(Scoped(s.scratch.value)), scratch := None))
    // CREATE INDEX IF NOT EXISTS on `vpn_configs`; it changes no row
    case CreateIndex(_) => if s.configs.None? then None else Some(s)
  }

  /** When an insert fails: no table, a row with its id, a row with its node, client and type, or a missing
      node or owner. */
  lemma InsertFailsIff(s: Schema, r: NewRow)
    ensures Exec(s, Insert(r)) == None <==>
            || s.scratch == None
            || (exists q :: q in s.scratch.value && q.id == r.id)
            || (exists q :: q in s.scratch.value && q.node == r.node && q.client == r.client && q.vpn == r.vpn)
            || r.node !in s.nodeIds || r.columns.owner !in s.userIds
    ensures Exec(s, Insert(r)).Some? ==> Exec(s, Insert(r)).value == s.(scratch := Some(s.scratch.value + [r]))
  {
    if s.scratch.Some? && Clashes(s.scratch.value, r) {
      var i :| 0 <= i < |s.scratch.value| && (s.scratch.value[i].id == r.id || SameKey(s.scratch.value[i], r));
      assert s.scratch.value[i] in s.scratch.value;
    }
  }

  /** A scratch table that is there already stops CREATE TABLE; the DROP in front of it takes care of that.
      It can take the name of the old table only once that is dropped. */
  lemma ScratchDropped(s: Schema)
    ensures Exec(s, CreateScratch) == None <==> s.scratch.Some?
    ensures var d := Exec(s, DropScratch);
            d.Some? && Exec(d.value, CreateScratch) == Some(s.(scratch := Some([])))
    ensures Exec(s, RenameScratch).Some? <==> s.scratch.Some? && s.configs == None
  {
  }

  // ----- node of a client -----

  datatype NodeClients = NodeClients(node: int, openvpn: set<string>, wireguard: set<string>)

  predicate Serves(n: NodeClients, client: string, vpn: string)
  {
    (vpn == "openvpn" && client in n.openvpn) || (vpn == "wireguard" && client in n.wireguard)
  }

  /** The first scanned node that lists the client, else the active node. */
  function NodeOf(nodes: seq<NodeClients>, lo: nat, active: int, client: string, vpn: string): int
    decreases |nodes| - lo
  {
    if lo >= |nodes| then active
    else if Serves(nodes[lo], client, vpn) then nodes[lo].node
    else NodeOf(nodes, lo + 1, active, client, vpn)
  }

  /** `nodes[k]` is the first scanned node with the client among its OpenVPN clients. */
  predicate FirstOpenvpn(nodes: seq<NodeClients>, k: int, client: string)
  {
    0 <= k < |nodes| && client in nodes[k].openvpn && forall i :: 0 <= i < k ==> client !in nodes[i].openvpn
  }

  predicate FirstWireguard(nodes: seq<NodeClients>, k: int, client: string)
  {
    0 <= k < |nodes| && client in nodes[k].wireguard && forall i :: 0 <= i < k ==> client !in nodes[i].wireguard
  }

  /** The client goes to the first node that has it under its type, and to the active node if none has or
      the type is another one. */
  ghost predicate GoesTo(nodes: seq<NodeClients>, active: int, client: string, vpn: string, node: int)
  {
    && (vpn == "openvpn" ==> forall k :: FirstOpenvpn(nodes, k, client) ==> node == nodes[k].node)
    && (vpn == "wireguard" ==> forall k :: FirstWireguard(nodes, k, client) ==> node == nodes[k].node)
    && (vpn == "openvpn" && (forall k :: 0 <= k < |nodes| ==> client !in nodes[k].openvpn) ==> node == active)
    && (vpn == "wireguard" && (forall k :: 0 <= k < |nodes| ==> client !in nodes[k].wireguard) ==> node == active)
    && (vpn != "openvpn" && vpn != "wireguard" ==> node == active)
  }

  lemma {:induction false} NodeOfGoes(nodes: seq<NodeClients>, lo: nat, active: int, client: string, vpn: string)
    requires lo <= |nodes|
    requires vpn == "openvpn" ==> forall i :: 0 <= i < lo ==> client !in nodes[i].openvpn
    requires vpn == "wireguard" ==> forall i :: 0 <= i < lo ==> client !in nodes[i].wireguard
    ensures GoesTo(nodes, active, client, vpn, NodeOf(nodes, lo, active, client, vpn))
    decreases |nodes| - lo
  {
    if lo < |nodes| && !Serves(nodes[lo], client, vpn) {
      NodeOfGoes(nodes, lo + 1, active, client, vpn);
    }
  }

  /** `resolve_node_id`. */
  method ResolveNodeId(nodes: seq<NodeClients>, active: int, client: string, vpn: string) returns (node: int)
    ensures node == NodeOf(nodes, 0, active, client, vpn)
    ensures GoesTo(nodes, active, client, vpn, node)
  {
    NodeOfGoes(nodes, 0, active, client, vpn);
    for i := 0 to |nodes|
      invariant NodeOf(nodes, 0, active, client, vpn) == NodeOf(nodes, i, active, client, vpn)
    {
      if vpn == "openvpn" && client in nodes[i].openvpn {
        return nodes[i].node;
      }
      if vpn == "wireguard" && client in nodes[i].wireguard {
        return nodes[i].node;
      }
    }
    return active;
  }

  function Rebuilt(r: OldRow, nodes: seq<NodeClients>, active: int): NewRow
  {
    NewRow(r.id, NodeOf(nodes, 0, active, r.client, r.vpn), r.client, r.vpn, r.columns)
  }

  function RebuiltRows(rows: seq<OldRow>, nodes: seq<NodeClients>, active: int): (r: seq<NewRow>)
    ensures |r| == |rows| && forall i :: 0 <= i < |rows| ==> r[i] == Rebuilt(rows[i], nodes, active)
  {
    seq(|rows|, i requires 0 <= i < |rows| => Rebuilt(rows[i], nodes, active))
  }

  /** What the migration makes of the schema. */
  function Migrated(s: Schema, nodes: seq<NodeClients>, active: int): Schema
  {
    if s.configs.None? || s.configs.value.Scoped? then s
    else s.(configs := Some(Scoped(RebuiltRows(s.configs.value.old_, nodes, active))), scratch := None, links := {})
  }

  /** The new table in the place of the old one. */
  function Swapped(s: Schema): Schema
    requires s.scratch.Some?
  {
    s.(configs := Some(Scoped(s.scratch.value)), scratch := None, links := {})
  }

  // ----- the database and the migration -----

  /** What happens at one statement: it runs, the driver raises, or the process dies. */
  datatype Event = Fine | Error | Dies

  datatype Outcome = Done | Raised | Died

  class Database {
    var committed: Schema
    var working: Option<Schema>
    var calls: nat
    const events: nat -> Event

    constructor (s: Schema, es: nat -> Event)
      ensures committed == s && working == None && calls == 0 && events == es
    {
      committed, working, calls, events := s, None, 0, es;
    }

    /** BEGIN IMMEDIATE. */
    method Begin() returns (e: Event)
      requires working == None
      modifies this
      ensures committed == old(committed) && calls == old(calls) + 1 && e == events(old(calls))
      ensures working == if e == Fine then Some(committed) else None
    {
      e := events(calls);
      calls := calls + 1;
      if e == Fine {
        working := Some(committed);
      }
    }

    /** A statement inside the transaction.  On an exception the context manager rolls back; when the
        process dies SQLite discards the journal. */
    method Execute(st: Stmt) returns (e: Event)
      requires working.Some?
      modifies this
      ensures committed == old(committed) && calls == old(calls) + 1
      ensures e == Fine <==> events(old(calls)) == Fine && Exec(old(working).value, st).Some?
      ensures e == Dies <==> events(old(calls)) == Dies
      ensures working == if e == Fine then Exec(old(working).value, st) else None
    {
      e := events(calls);
      calls := calls + 1;
      var s := Exec(working.value, st);
      if e == Fine && s.None? {
        e := Error;
      }
      working := if e == Fine then s else None;
    }

    /** COMMIT: when the process dies in it, the transaction is there or it is not. */
    method Commit(flushed: bool) returns (e: Event)
      requires working.Some?
      modifies this
      ensures calls == old(calls) + 1 && working == None && e == events(old(calls))
      ensures committed == if e == Fine || (e == Dies && flushed) then old(working).value else old(committed)
    {
      e := events(calls);
      calls := calls + 1;
      if e == Fine || (e == Dies && flushed) {
        committed := working.value;
      }
      working := None;
    }

    /** The loop that fills the new table. */
    method InsertRows(rows: seq<OldRow>, nodes: seq<NodeClients>, active: int) returns (e: Event)
      requires working.Some? && working.value.scratch == Some([])
      modifies this
      ensures committed == old(committed) && calls >= old(calls)
      ensures e == Fine ==> Accepted(old(working).value, RebuiltRows(rows, nodes, active), |rows|)
      ensures e == Fine ==> working == Some(old(working).value.(scratch := Some(RebuiltRows(rows, nodes, active))))
      ensures e != Fine ==> working == None
      ensures (forall n :: n >= old(calls) ==> events(n) == Fine) ==>
                (e == Fine <==> Accepted(old(working).value, RebuiltRows(rows, nodes, active), |rows|)) && e != Dies
    {
      e := Fine;
      ghost var all := RebuiltRows(rows, nodes, active);
      for i := 0 to |rows|
        invariant committed == old(committed) && calls >= old(calls) && e == Fine
        invariant working == Some(old(working).value.(scratch := Some(all[..i])))
        invariant Accepted(old(working).value, all, i)
      {
        var node := ResolveNodeId(nodes, active, rows[i].client, rows[i].vpn);
        var row := NewRow(rows[i].id, node, rows[i].client, rows[i].vpn, rows[i].columns);
        assert row == all[i];
        e := Execute(Insert(row));
        if e != Fine {
          return;
        }
        assert all[..i] + [all[i]] == all[..i + 1];
      }
      assert all[..|rows|] == all;
    }

    /** The statements up to the last row of the new table. */
    method FillScratch(rows: seq<OldRow>, nodes: seq<NodeClients>, active: int) returns (e: Event)
      requires working.Some?
      modifies this
      ensures committed == old(committed) && calls >= old(calls)
      ensures e == Fine ==> Accepted(old(working).value, RebuiltRows(rows, nodes, active), |rows|)
      ensures e == Fine ==> working == Some(old(working).value.(scratch := Some(RebuiltRows(rows, nodes, active))))
      ensures e != Fine ==> working == None
      ensures (forall n :: n >= old(calls) ==> events(n) == Fine) ==>
                (e == Fine <==> Accepted(old(working).value, RebuiltRows(rows, nodes, active), |rows|)) && e != Dies
    {
      e := Execute(DropScratch);
      if e != Fine {
        return;
      }
      e := Execute(CreateScratch);
      if e != Fine {
        return;
      }
      assert working == Some(old(working).value.(scratch := Some([])));
      e := InsertRows(rows, nodes, active);
    }

    /** The statements that put the new table in the place of the old one. */
    method SwapTables() returns (e: Event)
      requires working.Some? && working.value.configs.Some? && working.value.scratch.Some?
      modifies this
      ensures committed == old(committed) && calls >= old(calls)
      ensures e == Fine ==> working == Some(Swapped(old(working).value))
      ensures e != Fine ==> working == None
      ensures (forall n :: n >= old(calls) ==> events(n) == Fine) ==> e == Fine
    {
      e := Execute(DropConfigs);
      if e != Fine {
        return;
      }
      e := Execute(RenameScratch);
      if e != Fine {
        return;
      }
      e := Execute(CreateIndex("node_id"));
      if e != Fine {
        return;
      }
      e := Execute(CreateIndex("client_name"));
    }

    /** The transaction of the step.  It looks at the table again, because another worker may have
        rebuilt it since the first look. */
    method RebuildInTransaction(nodes: seq<NodeClients>, active: int, flushed: bool) returns (out: Outcome)
      requires working == None && committed.configs.Some?
      modifies this
      ensures working == None && calls >= old(calls)
      ensures Attempt(old(committed), committed, Scan(nodes, active))
      ensures out == Done ==> Rebuildable(old(committed), nodes, active)
      ensures out == Done ==> committed == Migrated(old(committed), nodes, active)
      ensures out == Raised ==> committed == old(committed)
      ensures (forall n :: n >= old(calls) ==> events(n) == Fine) ==>
                out == if Rebuildable(old(committed), nodes, active) then Done else Raised
    {
      var e := Begin();
      if e != Fine {
        return if e == Dies then Died else Raised;
      }
      if working.value.configs.value.Scoped? {
        e := Commit(flushed);
        return if e == Fine then Done else if e == Dies then Died else Raised;
      }
      var rows := working.value.configs.value.old_;
      e := FillScratch(rows, nodes, active);
      if e != Fine {
        return if e == Dies then Died else Raised;
      }
      e := SwapTables();
      if e != Fine {
        return if e == Dies then Died else Raised;
      }
      e := Commit(flushed);
      return if e == Fine then Done else if e == Dies then Died else Raised;
    }

    /** `_migrate_vpn_configs_node_scope`, with the node scan already done: `local` is the local node if
        there is one, `setting` the stored active node. */
    method MigrateNodeScope(local: Option<int>, setting: Option<int>, nodes: seq<NodeClients>, flushed: bool)
      returns (out: Outcome)
      requires working == None
      modifies this
      ensures working == None
      ensures local.None? || out == Raised ==> committed == old(committed)
      ensures local.Some? ==>
                var active := ActiveNode(local.value, setting);
                && Attempt(old(committed), committed, Scan(nodes, active))
                && (out == Done ==> committed == Migrated(old(committed), nodes, active))
                && (out == Done && old(committed).configs.Some? && old(committed).configs.value.Legacy? ==>
                      && committed.configs.Some? && committed.configs.value.Scoped?
                      && Carries(old(committed).configs.value.old_, committed.configs.value.new_, nodes,
                                 if setting.Some? && setting.value != 0 then setting.value else local.value))
                && ((forall n :: n >= old(calls) ==> events(n) == Fine) ==>
                      out == if Rebuildable(old(committed), nodes, active) then Done else Raised)
    {
      if committed.configs.None? || committed.configs.value.Scoped? || local.None? {
        return Done;
      }
      RebuiltCarries(committed.configs.value.old_, nodes, ActiveNode(local.value, setting));
      out := RebuildInTransaction(nodes, ActiveNode(local.value, setting), flushed);
    }
  }

  /** `get_active_node_id(db) or local.id`: whether the stored node still exists is not looked at. */
  function ActiveNode(local: int, setting: Option<int>): int
  {
    if setting.Some? && setting.value != 0 then setting.value else local
  }

  /** Row by row the new table is the old one, with every client on the node that has it. */
  ghost predicate Carries(rows: seq<OldRow>, all: seq<NewRow>, nodes: seq<NodeClients>, active: int)
  {
    && |all| == |rows|
    && forall i :: 0 <= i < |rows| ==>
         && all[i].id == rows[i].id && all[i].client == rows[i].client && all[i].vpn == rows[i].vpn
         && all[i].columns == rows[i].columns
         && GoesTo(nodes, active, rows[i].client, rows[i].vpn, all[i].node)
  }

  lemma RebuiltCarries(rows: seq<OldRow>, nodes: seq<NodeClients>, active: int)
    ensures Carries(rows, RebuiltRows(rows, nodes, active), nodes, active)
  {
    forall i | 0 <= i < |rows|
      ensures GoesTo(nodes, active, rows[i].client, rows[i].vpn, RebuiltRows(rows, nodes, active)[i].node)
    {
      NodeOfGoes(nodes, 0, active, rows[i].client, rows[i].vpn);
    }
  }

  /** The first `n` inserts go through. */
  predicate Accepted(s: Schema, rows: seq<NewRow>, n: int)
    requires n <= |rows|
  {
    forall i :: 0 <= i < n ==> !Clashes(rows[..i], rows[i]) && Refers(s, rows[i])
  }

  /** Every insert goes through. */
  predicate Rebuildable(s: Schema, nodes: seq<NodeClients>, active: int)
  {
    s.configs.Some? && s.configs.value.Legacy? ==>
      Accepted(s, RebuiltRows(s.configs.value.old_, nodes, active), |s.configs.value.old_|)
  }

  // ----- rows -----

  predicate DistinctIds(rows: seq<OldRow>)
  {
    forall i, j :: 0 <= i < j < |rows| ==> rows[i].id != rows[j].id
  }

  predicate UniqueClients(rows: seq<OldRow>)
  {
    forall i, j :: 0 <= i < j < |rows| ==> !(rows[i].client == rows[j].client && rows[i].vpn == rows[j].vpn)
  }

  predicate UniqueKeys(rows: seq<NewRow>)
  {
    forall i, j :: 0 <= i < j < |rows| ==> !SameKey(rows[i], rows[j])
  }

  /** The owner of every row exists, and so does the node it is given. */
  predicate AllRefer(s: Schema, rows: seq<OldRow>, nodes: seq<NodeClients>, active: int)
  {
    forall i :: 0 <= i < |rows| ==>
      rows[i].columns.owner in s.userIds && NodeOf(nodes, 0, active, rows[i].client, rows[i].vpn) in s.nodeIds
  }

  /** The node is a function of client and type, so uniqueness on (client, type) and uniqueness on
      (node, client, type) are the same.  The rebuild goes through exactly on tables that are unique in
      this sense, all of whose owners and nodes exist. */
  lemma RebuildableIff(s: Schema, nodes: seq<NodeClients>, active: int)
    requires s.configs.Some? && s.configs.value.Legacy? && DistinctIds(s.configs.value.old_)
    ensures var rows := s.configs.value.old_;
            && (UniqueKeys(RebuiltRows(rows, nodes, active)) <==> UniqueClients(rows))
            && (Rebuildable(s, nodes, active) <==> UniqueClients(rows) && AllRefer(s, rows, nodes, active))
  {
    var rows := s.configs.value.old_;
    var all := RebuiltRows(rows, nodes, active);
    forall i, j | 0 <= i < j < |rows|
      ensures SameKey(all[i], all[j]) <==> rows[i].client == rows[j].client && rows[i].vpn == rows[j].vpn
      ensures SameKey(all[i], all[j]) ==> Clashes(all[..j], all[j])
    {
      assert all[..j][i] == all[i];
    }
    assert forall i :: 0 <= i < |rows| ==> all[i] == Rebuilt(rows[i], nodes, active);
    if UniqueClients(rows) {
      forall j | 0 <= j < |rows|
        ensures !Clashes(all[..j], all[j])
      {
        assert forall i :: 0 <= i < j ==> all[..j][i] == all[i] && rows[i].id != rows[j].id;
      }
    }
  }

  /** No scanned node lists the client. */
  predicate Unlisted(r: OldRow, nodes: seq<NodeClients>)
  {
    forall i :: 0 <= i < |nodes| ==> !Serves(nodes[i], r.client, r.vpn)
  }

  lemma {:induction false} UnlistedGoesToActive(r: OldRow, nodes: seq<NodeClients>, lo: nat, active: int)
    requires Unlisted(r, nodes)
    ensures NodeOf(nodes, lo, active, r.client, r.vpn) == active
    decreases |nodes| - lo
  {
    if lo < |nodes| {
      UnlistedGoesToActive(r, nodes, lo + 1, active);
    }
  }

  /** The active node is a setting that may name a deleted node.  Then one client that no scan lists
      stops the rebuild, also of a table that is unique on client and type. */
  lemma StaleActiveStops(s: Schema, nodes: seq<NodeClients>, active: int, i: nat)
    requires s.configs.Some? && s.configs.value.Legacy? && i < |s.configs.value.old_|
    requires active !in s.nodeIds && Unlisted(s.configs.value.old_[i], nodes)
    ensures !Rebuildable(s, nodes, active)
  {
    var rows := s.configs.value.old_;
    UnlistedGoesToActive(rows[i], nodes, 0, active);
    assert RebuiltRows(rows, nodes, active)[i].node == active;
  }

  /** Every old row has exactly one new row, with its id and the copied columns, on the node that has its
      client. */
  lemma RowsPreserved(rows: seq<OldRow>, nodes: seq<NodeClients>, active: int, i: nat)
    requires DistinctIds(rows) && i < |rows|
    ensures var all := RebuiltRows(rows, nodes, active);
            && |all| == |rows|
            && (exists k :: 0 <= k < |all| && all[k].id == rows[i].id)
            && forall k :: 0 <= k < |all| && all[k].id == rows[i].id ==>
                 && k == i && all[k].client == rows[i].client && all[k].vpn == rows[i].vpn
                 && all[k].columns == rows[i].columns
                 && GoesTo(nodes, active, rows[i].client, rows[i].vpn, all[k].node)
  {
    var all := RebuiltRows(rows, nodes, active);
    assert all[i].id == rows[i].id;
    NodeOfGoes(nodes, 0, active, rows[i].client, rows[i].vpn);
    forall k | 0 <= k < |all| && all[k].id == rows[i].id
      ensures k == i
    {
      assert rows[k].id == rows[i].id;
    }
  }

  /** One worker's attempt, as `MigrateNodeScope` leaves it. */
  datatype Scan = Scan(nodes: seq<NodeClients>, active: int)

  /** It leaves the table as it was or, if that is possible, rebuilt. */
  predicate Attempt(before: Schema, after: Schema, scan: Scan)
  {
    || after == before
    || (Rebuildable(before, scan.nodes, scan.active) && after == Migrated(before, scan.nodes, scan.active))
  }

  ghost predicate Attempts(ss: seq<Schema>, scans: seq<Scan>)
  {
    |ss| == |scans| + 1 && forall i :: 0 <= i < |scans| ==> Attempt(ss[i], ss[i + 1], scans[i])
  }

  /** A rebuilt table stays as it is, whatever later attempts scan and wherever they stop. */
  lemma {:induction false} RebuiltStays(ss: seq<Schema>, scans: seq<Scan>, first: nat, n: nat)
    requires Attempts(ss, scans) && first <= n < |ss|
    requires ss[first].configs.Some? && ss[first].configs.value.Scoped?
    ensures ss[n] == ss[first]
  {
    if first < n {
      RebuiltStays(ss, scans, first, n - 1);
      assert Attempt(ss[n - 1], ss[n], scans[n - 1]);
    }
  }

  /** Attempt `k` is the first that went through: the table was the original one until then and is the
      rebuild of that scan from then on. */
  ghost predicate FirstThrough(ss: seq<Schema>, scans: seq<Scan>, k: nat, n: nat)
    requires k < n < |ss| <= |scans| + 1
  {
    && (forall i :: 0 <= i <= k ==> ss[i] == ss[0])
    && (forall i :: k < i <= n ==> ss[i] == Migrated(ss[0], scans[k].nodes, scans[k].active))
  }

  /** Any number of workers and restarts, each with its own node scan and each possibly cut short: the
      table is the original one throughout, or exactly one attempt, the first that went through, decides. */
  lemma {:induction false} AnyWorkers(ss: seq<Schema>, scans: seq<Scan>, n: nat)
    requires Attempts(ss, scans) && n < |ss|
    ensures (forall i :: 0 <= i <= n ==> ss[i] == ss[0]) || exists k :: 0 <= k < n && FirstThrough(ss, scans, k, n)
  {
    if n > 0 {
      AnyWorkers(ss, scans, n - 1);
      assert Attempt(ss[n - 1], ss[n], scans[n - 1]);
      if forall i :: 0 <= i <= n - 1 ==> ss[i] == ss[0] {
        if ss[n] != ss[0] {
          assert FirstThrough(ss, scans, n - 1, n);
        }
      } else if ss[0].configs.Some? && ss[0].configs.value.Legacy? {
        var k :| 0 <= k < n - 1 && FirstThrough(ss, scans, k, n - 1);
        RebuiltStays(ss, scans, n - 1, n);
        assert FirstThrough(ss, scans, k, n);
      }
    }
  }

  /** As long as the setting stays stale and nobody lists that client, every start leaves the table as it
      was, however many there are. */
  lemma {:induction false} StaleActiveForever(ss: seq<Schema>, scans: seq<Scan>, i: nat, n: nat)
    requires Attempts(ss, scans) && n < |ss|
    requires ss[0].configs.Some? && ss[0].configs.value.Legacy? && i < |ss[0].configs.value.old_|
    requires forall k :: 0 <= k < |scans| ==>
               scans[k].active !in ss[0].nodeIds && Unlisted(ss[0].configs.value.old_[i], scans[k].nodes)
    ensures ss[n] == ss[0]
  {
    if n > 0 {
      StaleActiveForever(ss, scans, i, n - 1);
      StaleActiveStops(ss[0], scans[n - 1].nodes, scans[n - 1].active, i);
      assert Attempt(ss[n - 1], ss[n], scans[n - 1]);
    }
  }

  /** A rebuild that goes through leaves no tag link: they are deleted with the rows of the old table. */
  lemma LinksLost(s: Schema, t: Schema, scan: Scan)
    requires Attempt(s, t, scan) && t != s
    ensures t.links == {} && t.nodeIds == s.nodeIds && t.userIds == s.userIds
  {
  }
}
