/** The portal-token migrations: one active token per client and node, and one per user. */
module PortalTokens {
  import opened Common
  import opened Dedupe

  /** `key` is (node, client) for client tokens and the user for user tokens. */
  datatype Token<K> = Token(key: K, revoked: Option<int>, token: string)

  type Rows<K> = map<int, Token<K>>

  function ActiveKeys<K>(m: Rows<K>): map<int, K> { map id | id in m && m[id].revoked.None? :: m[id].key }

  /** UPDATE revoked_at of every active row that is not the newest active one of its key. */
  function Revoked<K(==)>(m: Rows<K>, now: int): Rows<K>
  {
    map id | id in m ::
      if m[id].revoked.None? && id !in Leaders(ActiveKeys(m), true) then m[id].(revoked := Some(now)) else m[id]
  }

  /** An active token with the highest id among the active tokens of its key. */
  predicate IsNewest<K(==)>(m: Rows<K>, id: int)
  {
    && id in m && m[id].revoked.None?
    && forall j :: j in m && m[j].revoked.None? && m[j].key == m[id].key ==> j <= id
  }

  /** The partial unique index on active tokens. */
  predicate ActiveUnique<K(==)>(m: Rows<K>)
  {
    forall i, j :: i in m && j in m && m[i].revoked.None? && m[j].revoked.None? && m[i].key == m[j].key ==> i == j
  }

  /** `indexed` says whether the unique index on active tokens exists. */
  class Table<K(==)> {
    var rows: Rows<K>
    var indexed: bool

    /** The database enforces its indexes. */
    predicate Valid()
      reads this
    {
      indexed ==> ActiveUnique(rows)
    }

    /** `_migrate_client_portal_tokens_active_unique`, and the same step for user tokens.  Afterwards the
        index holds; exactly the newest active token of each key is active, every other active one is
        revoked now, and revoked ones and all other columns are untouched. */
    method MigrateActiveUnique(now: int)
      requires Valid()
      modifies this
      ensures Valid() && indexed && ActiveUnique(rows) && rows.Keys == old(rows).Keys
      ensures old(indexed) ==> rows == old(rows)
      ensures forall id :: id in rows ==>
                rows[id] == if old(rows)[id].revoked.Some? || IsNewest(old(rows), id) then old(rows)[id]
                            else old(rows)[id].(revoked := Some(now))
    {
      if indexed {
        return;
      }
      KeepsNewest(rows, now);
      rows := Revoked(rows, now);
      indexed := true;
    }
  }

  /** Which rows are active afterwards: exactly the newest active one of each key.  Revoked rows and
      all other columns are untouched, no row is lost, and the unique index holds. */
  lemma KeepsNewest<K>(m: Rows<K>, now: int)
    ensures var r := Revoked(m, now);
            && r.Keys == m.Keys
            && (forall id :: id in m ==> r[id].key == m[id].key && r[id].token == m[id].token)
            && (forall id :: id in m && m[id].revoked.Some? ==> r[id] == m[id])
            && (forall id :: id in m ==> (r[id].revoked.None? <==> IsNewest(m, id)))
            && ActiveUnique(r)
  {
    var r := Revoked(m, now);
    var g := ActiveKeys(m);
    forall id | id in m && m[id].revoked.None?
      ensures id in Leaders(g, true) <==> IsNewest(m, id)
    {
      assert forall j :: j in g <==> j in m && m[j].revoked.None?;
      if id !in Leaders(g, true) {
        var j :| j in g && g[j] == g[id] && !Better(id, j, true);
      }
    }
    forall i, j | i in r && j in r && r[i].revoked.None? && r[j].revoked.None? && r[i].key == r[j].key
      ensures i == j
    {
      LeaderUnique(g, i, j, true);
    }
  }

  /** Every key that had an active token still has one, and only one. */
  lemma KeyKeepsToken<K>(m: Rows<K>, now: int, id: int)
    requires id in m && m[id].revoked.None?
    ensures var r := Revoked(m, now);
            exists j :: j in r && j >= id && r[j].revoked.None? && r[j].key == m[id].key
              && forall k :: k in r && r[k].revoked.None? && r[k].key == m[id].key ==> k == j
  {
    var lead := LeaderExists(ActiveKeys(m), id, true);
    assert Better(lead, id, true);
    var r := Revoked(m, now);
    assert lead in r && r[lead].revoked.None?;
    KeepsNewest(m, now);
  }

  lemma RevokedTwice<K>(m: Rows<K>, now: int, later: int)
    ensures Revoked(Revoked(m, now), later) == Revoked(m, now)
  {
    var r := Revoked(m, now);
    KeepsNewest(m, now);
    KeepsNewest(r, later);
    forall id | id in r
      ensures Revoked(r, later)[id] == r[id]
    {
      if r[id].revoked.None? {
        assert Revoked(r, later)[id].revoked.None?;
      }
    }
  }
}
