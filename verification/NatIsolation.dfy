/** Rules that a plan does not name keep their order, whatever the environment does. */
module NatIsolation {
  import opened NatTable

  /** The sub-sequence of the rules with property `keep`. */
  function Kept(t: Table, keep: Rule -> bool): Table
  {
    if t == [] then [] else (if keep(t[0]) then [t[0]] else []) + Kept(t[1..], keep)
  }

  lemma {:induction false} KeptAppend(t: Table, r: Rule, keep: Rule -> bool)
    ensures Kept(t + [r], keep) == Kept(t, keep) + (if keep(r) then [r] else [])
  {
    if t == [] {
      assert [] + [r] == [r] && [r][1..] == [];
    } else {
      assert (t + [r])[1..] == t[1..] + [r];
      KeptAppend(t[1..], r, keep);
    }
  }

  lemma {:induction false} KeptRemove(t: Table, r: Rule, keep: Rule -> bool)
    requires r in t && !keep(r)
    ensures Kept(RemoveFirst(t, r), keep) == Kept(t, keep)
  {
    if t[0] != r {
      var rest := RemoveFirst(t[1..], r);
      assert ([t[0]] + rest)[1..] == rest;
      KeptRemove(t[1..], r, keep);
    }
  }

  /** The command names no rule with property `keep`. */
  predicate Spares(a: Argv, keep: Rule -> bool)
  {
    var op := Parsed(a);
    op.Some? && !keep(op.value.rule)
  }

  lemma RunSpares(t: Table, a: Argv, f: Fault, keep: Rule -> bool)
    requires Spares(a, keep)
    ensures Kept(RunNat(t, a, f).table, keep) == Kept(t, keep)
    ensures Inverted(a).Some? && Spares(Inverted(a).value, keep)
  {
    InvertedParsed(a);
    var r := Parsed(a).value.rule;
    KeptAppend(t, r, keep);
    if r in t {
      KeptRemove(t, r, keep);
    }
  }

  /** Every table of the history, and the last one, show the kept rules in the same order. */
  ghost predicate KeepsOrder(before: World, after: World, keep: Rule -> bool)
  {
    && Kept(after.table, keep) == Kept(before.table, keep)
    && forall x :: x in after.seen ==> x in before.seen || Kept(x, keep) == Kept(before.table, keep)
  }

  lemma {:induction false} RollbackSpares(w: World, applied: seq<Argv>, errors: seq<Argv>,
      fs: Faults, keep: Rule -> bool)
    requires forall i :: 0 <= i < |applied| ==> Spares(applied[i], keep)
    ensures KeepsOrder(w, Rollback(w, applied, errors, fs).world, keep)
    decreases |applied|
  {
    if applied != [] {
      var rest, last := applied[..|applied| - 1], applied[|applied| - 1];
      RunSpares(w.table, last, NoFault, keep);
      var inv := Inverted(last).value;
      RunSpares(w.table, inv, fs(w.calls), keep);
      var next := Call(w, inv, fs);
      if Succeeds(w, inv, fs) {
        RollbackSpares(next, rest, errors, fs, keep);
      } else {
        RollbackSpares(next, rest, errors + [inv], fs, keep);
      }
    }
  }

  /** In every outcome, rollback failures included. */
  lemma {:induction false} ApplySpares(w: World, plan: seq<Argv>, i: nat, fs: Faults, keep: Rule -> bool)
    requires i <= |plan| && forall j :: 0 <= j < |plan| ==> Spares(plan[j], keep)
    ensures KeepsOrder(w, Apply(w, plan, i, fs).world, keep)
    decreases |plan| - i
  {
    if i < |plan| {
      var next := Call(w, plan[i], fs);
      RunSpares(w.table, plan[i], fs(w.calls), keep);
      if Succeeds(w, plan[i], fs) {
        ApplySpares(next, plan, i + 1, fs, keep);
      } else {
        RollbackSpares(next, plan[..i], [], fs, keep);
      }
    }
  }
}
