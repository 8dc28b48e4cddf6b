/** De-duplication before a unique index: one row per group survives. */
module Dedupe {
  predicate Better(a: int, b: int, newest: bool) { if newest then a >= b else a <= b }

  /** `id` is the lowest (or, for `newest`, the highest) id of its group. */
  predicate Leads<K(==)>(g: map<int, K>, id: int, newest: bool)
  {
    id in g && forall j :: j in g && g[j] == g[id] ==> Better(id, j, newest)
  }

  /** `SELECT MIN(id) ... GROUP BY key`, or MAX. */
  function Leaders<K(==)>(g: map<int, K>, newest: bool): set<int>
  {
    set id | id in g && Leads(g, id, newest)
  }

  /** Every group has a leader. */
  lemma {:induction false} LeaderExists<K>(g: map<int, K>, id: int, newest: bool) returns (lead: int)
    requires id in g
    ensures Leads(g, lead, newest) && g[lead] == g[id]
    decreases (set j | j in g && g[j] == g[id] && !Better(id, j, newest))
  {
    if Leads(g, id, newest) {
      lead := id;
    } else {
      var j :| j in g && g[j] == g[id] && !Better(id, j, newest);
      var before, after := (set k | k in g && g[k] == g[id] && !Better(id, k, newest)),
                           (set k | k in g && g[k] == g[j] && !Better(j, k, newest));
      assert j in before && j !in after && after <= before;
      lead := LeaderExists(g, j, newest);
    }
  }

  /** And only one. */
  lemma LeaderUnique<K>(g: map<int, K>, a: int, b: int, newest: bool)
    requires Leads(g, a, newest) && Leads(g, b, newest) && g[a] == g[b]
    ensures a == b
  {
    assert Better(a, b, newest) && Better(b, a, newest);
  }
}
