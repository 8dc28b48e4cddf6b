/** `_migrate_unlock_redemptions_user_scope`. */
module Redemptions {
  import opened Common
  import opened Dedupe

  /** Before the migration a database without the `user_id` column has None for every user. */
  datatype Redemption = Redemption(code: int, user: Option<int>, client: string, node: Option<int>, at: Option<int>)

  type Rows = map<int, Redemption>

  /** The two partial unique indexes group user redemptions by user and the others by client and node. */
  datatype Group = ByUser(code: int, user: int) | ByClient(code: int, client: string, node: Option<int>)

  function GroupOf(r: Redemption): Group
  {
    if r.user.Some? then ByUser(r.code, r.user.value) else ByClient(r.code, r.client, r.node)
  }

  function Groups(m: Rows): map<int, Group> { map id | id in m :: GroupOf(m[id]) }

  function Located(r: Redemption, fallback: Option<int>): Redemption
  {
    if r.node.None? then r.(node := fallback) else r
  }

  /** UPDATE node_id to the fallback node where it is NULL. */
  function Backfilled(m: Rows, fallback: Option<int>): Rows { map id | id in m :: Located(m[id], fallback) }

  /** DELETE the rows that still have no node. */
  function WithNode(m: Rows): Rows { map id | id in m && m[id].node.Some? :: m[id] }

  /** DELETE all but the lowest id of each group. */
  function Deduped(m: Rows): Rows { map id | id in m && id in Leaders(Groups(m), false) :: m[id] }

  function Migrated(m: Rows, fallback: Option<int>): Rows { Deduped(WithNode(Backfilled(m, fallback))) }

  lemma SameRows(m: Rows, n: Rows)
    requires m.Keys == n.Keys && forall id :: id in m.Keys ==> m[id] == n[id]
    ensures m == n
  {
    forall id | id in m
      ensures m[id] == n[id]
    {
      var a, b := m[id], n[id];
      assert a == b;
    }
  }

  predicate SameUserKey(a: Redemption, b: Redemption)
  {
    a.user.Some? && a.user == b.user && a.code == b.code
  }

  predicate SameOrphanKey(a: Redemption, b: Redemption)
  {
    a.user.None? && b.user.None? && a.code == b.code && a.client == b.client && a.node == b.node
  }

  /** `uq_unlock_code_redemptions_code_user` and `..._code_client_node_orphan`. */
  predicate MeetsIndexes(m: Rows)
  {
    && (forall i, j :: i in m && j in m && SameUserKey(m[i], m[j]) ==> i == j)
    && (forall i, j :: i in m && j in m && SameOrphanKey(m[i], m[j]) ==> i == j)
  }

  lemma KeptLeads(m: Rows, i: int, j: int)
    requires i in Deduped(m) && j in Deduped(m) && GroupOf(m[i]) == GroupOf(m[j])
    ensures i == j
  {
    LeaderUnique(Groups(m), i, j, false);
  }

  /** The migrated rows always meet both indexes and NOT NULL: a user redeems a code once, and so does a
      client on a node without a user. */
  lemma IndexesMet(m: Rows, fallback: Option<int>)
    ensures MeetsIndexes(Migrated(m, fallback))
    ensures AllLocated(Migrated(m, fallback))
    ensures var d := Migrated(m, fallback);
            forall i, j :: i in d && j in d && i != j && d[i].code == d[j].code ==>
              && !(d[i].user == d[j].user && d[i].user != None)
              && !(d[i].user == None && d[j].user == None && d[i].client == d[j].client && d[i].node == d[j].node)
  {
    var w := WithNode(Backfilled(m, fallback));
    var d := Deduped(w);
    forall i, j | i in d && j in d && GroupOf(d[i]) == GroupOf(d[j])
      ensures i == j
    {
      KeptLeads(w, i, j);
    }
  }

  /** The node of a row after the migration. */
  function NodeAfter(r: Redemption, fallback: Option<int>): Option<int>
  {
    if r.node.Some? then r.node else fallback
  }

  /** Two redemptions of one code by one user, or by one client on one node when neither has a user. */
  predicate SameUse(a: Redemption, b: Redemption, fallback: Option<int>)
  {
    || (a.user.Some? && b.user == a.user && b.code == a.code)
    || (a.user.None? && b.user.None? && b.code == a.code && b.client == a.client
        && NodeAfter(a, fallback) == NodeAfter(b, fallback))
  }

  /** The row has a node, or is given one, and no row with a lower id that has one is the same use. */
  predicate Stays(m: Rows, id: int, fallback: Option<int>)
    requires id in m
  {
    && NodeAfter(m[id], fallback).Some?
    && forall j :: j in m && NodeAfter(m[j], fallback).Some? && SameUse(m[j], m[id], fallback) ==> id <= j
  }

  lemma UseIsGroup(a: Redemption, b: Redemption, fallback: Option<int>)
    ensures Located(a, fallback) == a.(node := NodeAfter(a, fallback))
    ensures SameUse(a, b, fallback) <==> GroupOf(Located(a, fallback)) == GroupOf(Located(b, fallback))
  {
  }

  lemma LocatedRow(m: Rows, fallback: Option<int>, j: int)
    ensures var w := WithNode(Backfilled(m, fallback));
            && (j in w <==> j in m && NodeAfter(m[j], fallback).Some?)
            && (j in w ==> w[j] == Located(m[j], fallback))
  {
    assert j in m ==> Backfilled(m, fallback)[j] == Located(m[j], fallback);
  }

  /** No use of a code that has a node is lost: for every row with a node, or given one, exactly the lowest
      id of the same use stays, with all its columns. */
  lemma NoGroupLost(m: Rows, fallback: Option<int>, id: int)
    requires id in m && NodeAfter(m[id], fallback).Some?
    ensures exists lead :: lead in Migrated(m, fallback) && lead <= id && lead in m
              && SameUse(m[lead], m[id], fallback)
              && Migrated(m, fallback)[lead] == m[lead].(node := NodeAfter(m[lead], fallback))
    ensures id in Migrated(m, fallback) <==> Stays(m, id, fallback)
  {
    var w := WithNode(Backfilled(m, fallback));
    LocatedRow(m, fallback, id);
    forall j
      ensures j in w <==> j in m && NodeAfter(m[j], fallback).Some?
      ensures j in w ==> w[j] == m[j].(node := NodeAfter(m[j], fallback))
      ensures j in w ==> (Groups(w)[j] == Groups(w)[id] <==> SameUse(m[j], m[id], fallback))
    {
      LocatedRow(m, fallback, j);
      if j in w {
        UseIsGroup(m[j], m[id], fallback);
      }
    }
    var lead := LeaderExists(Groups(w), id, false);
    assert Better(lead, id, false);
    assert lead in Migrated(m, fallback);
  }

  predicate AllLocated(m: Rows) { forall id :: id in m ==> m[id].node.Some? }

  /** `ready` is `_unlock_redemptions_user_scope_ready`: the new columns and both indexes exist. */
  class Table {
    var rows: Rows
    var ready: bool

    /** The database enforces its indexes and NOT NULL. */
    predicate Valid()
      reads this
    {
      ready ==> MeetsIndexes(rows) && AllLocated(rows)
    }

    /** `_migrate_unlock_redemptions_user_scope`, its data statements in order.  Afterwards both indexes
        and NOT NULL hold, and of the old rows with a node exactly the lowest id of each use is left. */
    method MigrateUserScope(fallback: Option<int>)
      requires Valid()
      modifies this
      ensures Valid() && ready && MeetsIndexes(rows) && AllLocated(rows)
      ensures old(ready) ==> rows == old(rows)
      ensures rows.Keys <= old(rows).Keys
      ensures !old(ready) ==> forall id :: id in old(rows) ==>
                && (id in rows <==> Stays(old(rows), id, fallback))
                && (id in rows ==> rows[id] == old(rows)[id].(node := NodeAfter(old(rows)[id], fallback)))
    {
      if ready {
        return;
      }
      ghost var before := rows;
      if fallback.Some? {
        rows := Backfilled(rows, fallback);
      } else {
        SameRows(rows, Backfilled(rows, fallback));
      }
      rows := WithNode(rows);
      rows := Deduped(rows);
      ready := true;
      IndexesMet(before, fallback);
      forall id | id in before
        ensures id in rows <==> Stays(before, id, fallback)
        ensures id in rows ==> rows[id] == before[id].(node := NodeAfter(before[id], fallback))
      {
        RowStays(before, id, fallback);
      }
    }
  }

  lemma RowStays(m: Rows, id: int, fallback: Option<int>)
    requires id in m
    ensures id in Migrated(m, fallback) <==> Stays(m, id, fallback)
    ensures id in Migrated(m, fallback) ==>
              Migrated(m, fallback)[id] == m[id].(node := NodeAfter(m[id], fallback))
  {
    LocatedRow(m, fallback, id);
    if NodeAfter(m[id], fallback).Some? {
      NoGroupLost(m, fallback, id);
    }
  }

  /** Nothing else appears, and running it again changes nothing. */
  lemma Idempotent(m: Rows, fallback: Option<int>, fallback': Option<int>)
    ensures Migrated(m, fallback).Keys <= m.Keys
    ensures Migrated(Migrated(m, fallback), fallback') == Migrated(m, fallback)
  {
    var d := Migrated(m, fallback);
    IndexesMet(m, fallback);
    assert forall id :: id in d ==> Located(d[id], fallback') == d[id];
    SameRows(d, WithNode(Backfilled(d, fallback')));
    forall id | id in d
      ensures Leads(Groups(d), id, false)
    {
      forall j | j in d && GroupOf(d[j]) == GroupOf(d[id])
        ensures j == id
      {
        KeptLeads(WithNode(Backfilled(m, fallback)), j, id);
      }
    }
    assert forall id :: id in d ==> id in Leaders(Groups(d), false);
    SameRows(d, Deduped(d));
  }
}
