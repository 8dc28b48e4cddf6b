/** What the runs of plans keep, undo and leave behind. */
module NatRuns {
  import opened Spelling
  import opened NatTable

  // ----- what every run keeps -----

  /** The table after running the commands with no fault. */
  function After(t: Table, cmds: seq<Argv>): Table
  {
    if cmds == [] then t
    else RunNat(After(t, cmds[..|cmds| - 1]), cmds[|cmds| - 1], NoFault).table
  }

  /** Every command finds what it needs. */
  predicate Runs(t: Table, cmds: seq<Argv>)
  {
    cmds == [] ||
    (Runs(t, cmds[..|cmds| - 1]) &&
     RunNat(After(t, cmds[..|cmds| - 1]), cmds[|cmds| - 1], NoFault).ok)
  }

  lemma RemoveFirstMultiset(t: Table, r: Rule)
    requires r in t
    ensures multiset(RemoveFirst(t, r)) == multiset(t) - multiset{r}
  {
    assert t == [t[0]] + t[1..];
    if t[0] != r {
      RemoveFirstMultiset(t[1..], r);
    }
  }

  /** What one successful command does to the multiset of rules. */
  function Change(m: multiset<Rule>, op: Op): multiset<Rule>
  {
    match op
    case Append(r) => m + multiset{r}
    case Delete(r) => m - multiset{r}
  }

  lemma RunChanges(t: Table, op: Op)
    ensures var ran := RunOp(t, op);
            && (ran.ok ==> multiset(ran.table) == Change(multiset(t), op))
            && (ran.ok <==> op.Append? || op.rule in multiset(t))
  {
    if op.Delete? && op.rule in t {
      RemoveFirstMultiset(t, op.rule);
    }
  }

  lemma UndoAppend(v: Table, u: Table, r: Rule)
    requires multiset(u) == multiset(v) + multiset{r}
    ensures r in u && multiset(RemoveFirst(u, r)) == multiset(v)
  {
    assert r in multiset(u);
    RemoveFirstMultiset(u, r);
  }

  lemma UndoDelete(v: Table, u: Table, r: Rule)
    requires r in v && multiset(u) == multiset(v) - multiset{r}
    ensures multiset(u + [r]) == multiset(v)
  {
    assert r in multiset(v);
  }

  lemma UndoOp(v: Table, u: Table, op: Op)
    requires RunOp(v, op).ok && multiset(u) == multiset(RunOp(v, op).table)
    ensures RunOp(u, op.Inverse()).ok && multiset(RunOp(u, op.Inverse()).table) == multiset(v)
  {
    RunChanges(v, op);
    if op.Append? {
      UndoAppend(v, u, op.rule);
    } else {
      UndoDelete(v, u, op.rule);
    }
  }

  /** Undoing the last command that ran: the inverse finds its rule and takes the multiset back. */
  lemma UndoLast(v: Table, u: Table, a: Argv)
    requires RunNat(v, a, NoFault).ok && multiset(u) == multiset(RunNat(v, a, NoFault).table)
    ensures Inverted(a).Some?
    ensures RunNat(u, Inverted(a).value, NoFault).ok
    ensures multiset(RunNat(u, Inverted(a).value, NoFault).table) == multiset(v)
  {
    InvertedParsed(a);
    UndoOp(v, u, Parsed(a).value);
  }

  ghost predicate NoFaultFrom(fs: Faults, n: nat)
  {
    forall j :: j >= n ==> fs(j) == NoFault
  }

  /** `x` has the rules, in some order, that the table has after some first part of the plan. */
  ghost predicate Passed(t: Table, plan: seq<Argv>, x: Table)
  {
    exists k :: 0 <= k <= |plan| && Runs(t, plan[..k]) && multiset(x) == multiset(After(t, plan[..k]))
  }

  lemma RunsStep(t: Table, plan: seq<Argv>, k: nat)
    requires k < |plan|
    ensures After(t, plan[..k + 1]) == RunNat(After(t, plan[..k]), plan[k], NoFault).table
    ensures Runs(t, plan[..k + 1]) <==> Runs(t, plan[..k]) && RunNat(After(t, plan[..k]), plan[k], NoFault).ok
  {
    assert plan[..k + 1][..k] == plan[..k];
  }

  /** Errors are only added. */
  lemma {:induction false} ErrorsGrow(w: World, applied: seq<Argv>, errors: seq<Argv>, fs: Faults)
    ensures errors <= Rollback(w, applied, errors, fs).errors
    decreases |applied|
  {
    if applied != [] {
      var rest, last := applied[..|applied| - 1], applied[|applied| - 1];
      var inv := Inverted(last);
      if inv.None? {
        ErrorsGrow(w, rest, errors + [last], fs);
      } else {
        ErrorsGrow(Call(w, inv.value, fs), rest, errors, fs);
        ErrorsGrow(Call(w, inv.value, fs), rest, errors + [inv.value], fs);
      }
    }
  }

  /** One rollback call that is not made to fail. */
  lemma UndoStep(t: Table, plan: seq<Argv>, k: nat, w: World, fs: Faults)
    requires 0 < k <= |plan| && Runs(t, plan[..k]) && multiset(w.table) == multiset(After(t, plan[..k]))
    ensures Runs(t, plan[..k - 1]) && Inverted(plan[k - 1]).Some?
    ensures fs(w.calls) == NoFault ==>
              var inv := Inverted(plan[k - 1]).value;
              && Succeeds(w, inv, fs)
              && multiset(Call(w, inv, fs).table) == multiset(After(t, plan[..k - 1]))
              && Passed(t, plan, Call(w, inv, fs).table)
  {
    RunsStep(t, plan, k - 1);
    UndoLast(After(t, plan[..k - 1]), w.table, plan[k - 1]);
  }

  /** The first rollback call; if it fails, that is noted. */
  lemma RollbackUnfolds(w: World, plan: seq<Argv>, k: nat, fs: Faults)
    requires 0 < k <= |plan| && Inverted(plan[k - 1]).Some?
    ensures var inv := Inverted(plan[k - 1]).value;
            if Succeeds(w, inv, fs)
            then Rollback(w, plan[..k], [], fs) == Rollback(Call(w, inv, fs), plan[..k - 1], [], fs)
            else if fs(w.calls) == Uncaught then Rollback(w, plan[..k], [], fs) == Undone(Call(w, inv, fs), [], true)
            else Rollback(w, plan[..k], [], fs).errors != []
  {
    var inv := Inverted(plan[k - 1]).value;
    assert plan[..k][..k - 1] == plan[..k - 1];
    if !Succeeds(w, inv, fs) && fs(w.calls) != Uncaught {
      ErrorsGrow(Call(w, inv, fs), plan[..k - 1], [] + [inv], fs);
    }
  }

  /** How many of the applied commands the reverse pass has not come to when it ends: none, unless an
      uncaught exception ends it. */
  function LeftBack(w: World, applied: seq<Argv>, fs: Faults): (n: nat)
    ensures n <= |applied|
    decreases |applied|
  {
    if applied == [] then 0
    else
      var rest, inv := applied[..|applied| - 1], Inverted(applied[|applied| - 1]);
      if inv.None? then LeftBack(w, rest, fs)
      else if fs(w.calls) == Uncaught then |applied|
      else LeftBack(Call(w, inv.value, fs), rest, fs)
  }

  /** How many commands of the plan are in effect when a run ends. */
  function Left(w: World, plan: seq<Argv>, i: nat, fs: Faults): (n: nat)
    requires i <= |plan|
    ensures n <= |plan|
    decreases |plan| - i
  {
    if i == |plan| then i
    else if Succeeds(w, plan[i], fs) then Left(Call(w, plan[i], fs), plan, i + 1, fs)
    else if fs(w.calls) == Uncaught then i
    else LeftBack(Call(w, plan[i], fs), plan[..i], fs)
  }

  lemma LeftBackUnfolds(w: World, plan: seq<Argv>, k: nat, fs: Faults)
    requires 0 < k <= |plan| && Inverted(plan[k - 1]).Some?
    ensures LeftBack(w, plan[..k], fs) ==
            if fs(w.calls) == Uncaught then k else LeftBack(Call(w, Inverted(plan[k - 1]).value, fs), plan[..k - 1], fs)
  {
    assert plan[..k][..k - 1] == plan[..k - 1];
  }

  /** From call `n` on there is no fault but uncaught exceptions. */
  ghost predicate CalmFrom(fs: Faults, n: nat)
  {
    forall j :: j >= n ==> fs(j) == NoFault || fs(j) == Uncaught
  }

  /** A call that has no effect passes the same table again. */
  lemma IdlePasses(t: Table, plan: seq<Argv>, k: nat, x: Table)
    requires k <= |plan| && Runs(t, plan[..k]) && multiset(x) == multiset(After(t, plan[..k]))
    ensures Passed(t, plan, x)
  {
  }

  /** Nothing but uncaught exceptions disturbs the rollback, or nothing is noted. */
  ghost predicate Clean(w: World, applied: seq<Argv>, fs: Faults)
  {
    CalmFrom(fs, w.calls) || Rollback(w, applied, [], fs).errors == []
  }

  lemma CleanStep(t: Table, plan: seq<Argv>, k: nat, w: World, fs: Faults)
    requires 0 < k <= |plan| && Runs(t, plan[..k]) && multiset(w.table) == multiset(After(t, plan[..k]))
    requires Clean(w, plan[..k], fs) && fs(w.calls) != Uncaught
    ensures Inverted(plan[k - 1]).Some? && Runs(t, plan[..k - 1])
    ensures var next := Call(w, Inverted(plan[k - 1]).value, fs);
            && Clean(next, plan[..k - 1], fs)
            && Rollback(w, plan[..k], [], fs) == Rollback(next, plan[..k - 1], [], fs)
            && multiset(next.table) == multiset(After(t, plan[..k - 1]))
            && Passed(t, plan, next.table)
  {
    UndoStep(t, plan, k, w, fs);
    RollbackUnfolds(w, plan, k, fs);
  }

  lemma RollbackCut(t: Table, plan: seq<Argv>, k: nat, w: World, fs: Faults)
    requires 0 < k <= |plan| && Runs(t, plan[..k]) && multiset(w.table) == multiset(After(t, plan[..k]))
    requires fs(w.calls) == Uncaught
    ensures LeftBack(w, plan[..k], fs) == k
    ensures Rollback(w, plan[..k], [], fs) == Undone(World(w.table, w.calls + 1, w.seen + [w.table]), [], true)
    ensures Passed(t, plan, w.table)
  {
    UndoStep(t, plan, k, w, fs);
    RollbackUnfolds(w, plan, k, fs);
    LeftBackUnfolds(w, plan, k, fs);
  }

  /** A rollback that noted nothing has left the first `n` commands in effect, none unless an uncaught
      exception ended it, and passed only tables of the plan. */
  ghost predicate Leaves(t: Table, plan: seq<Argv>, w: World, u: Undone, n: nat)
    requires n <= |plan|
  {
    && u.errors == []
    && (u.escaped <==> n > 0)
    && multiset(u.world.table) == multiset(After(t, plan[..n]))
    && forall x :: x in u.world.seen ==> x in w.seen || Passed(t, plan, x)
  }

  lemma LeavesEarlier(t: Table, plan: seq<Argv>, w: World, next: World, u: Undone, n: nat)
    requires n <= |plan| && Leaves(t, plan, next, u, n)
    requires next.seen == w.seen + [next.table] && Passed(t, plan, next.table)
    ensures Leaves(t, plan, w, u, n)
  {
  }

  /** Rolling back the first `k` commands of a plan: if no rollback command is made to fail, none
      fails; and if none fails, exactly the commands that were not come to are in effect, and every table
      on the way is one the plan had passed. */
  lemma {:induction false} RollbackLeaves(t: Table, plan: seq<Argv>, k: nat, w: World, fs: Faults)
    requires k <= |plan| && Runs(t, plan[..k]) && multiset(w.table) == multiset(After(t, plan[..k]))
    requires Clean(w, plan[..k], fs)
    ensures Leaves(t, plan, w, Rollback(w, plan[..k], [], fs), LeftBack(w, plan[..k], fs))
    decreases k
  {
    if k == 0 {
      assert plan[..0] == [];
    } else {
      if fs(w.calls) == Uncaught {
        RollbackCut(t, plan, k, w, fs);
      } else {
        CleanStep(t, plan, k, w, fs);
        LeftBackUnfolds(w, plan, k, fs);
        var next := Call(w, Inverted(plan[k - 1]).value, fs);
        RollbackLeaves(t, plan, k - 1, next, fs);
        LeavesEarlier(t, plan, w, next, Rollback(w, plan[..k], [], fs), LeftBack(w, plan[..k], fs));
      }
    }
  }

  /** If no rollback command is made to fail, or none fails, the original rules are back. */
  lemma RollbackRestores(t: Table, plan: seq<Argv>, k: nat, w: World, fs: Faults)
    requires k <= |plan| && Runs(t, plan[..k]) && multiset(w.table) == multiset(After(t, plan[..k]))
    requires var u := Rollback(w, plan[..k], [], fs);
             NoFaultFrom(fs, w.calls) || (u.errors == [] && !u.escaped)
    ensures var u := Rollback(w, plan[..k], [], fs);
            && u.errors == [] && !u.escaped
            && multiset(u.world.table) == multiset(t)
            && forall x :: x in u.world.seen ==> x in w.seen || Passed(t, plan, x)
  {
    RollbackLeaves(t, plan, k, w, fs);
    if NoFaultFrom(fs, w.calls) {
      NoneLeft(w, plan[..k], fs);
    }
    assert plan[..0] == [];
  }

  lemma {:induction false} NoneLeft(w: World, applied: seq<Argv>, fs: Faults)
    requires NoFaultFrom(fs, w.calls)
    ensures LeftBack(w, applied, fs) == 0
    decreases |applied|
  {
    if applied != [] {
      var rest, inv := applied[..|applied| - 1], Inverted(applied[|applied| - 1]);
      NoneLeft(if inv.None? then w else Call(w, inv.value, fs), rest, fs);
    }
  }

  /** What a run that started with the first `i` commands in effect leaves with `n` of them. */
  ghost predicate RunLeaves(t: Table, plan: seq<Argv>, w: World, d: Done, n: nat)
    requires n <= |plan|
  {
    && (d.outcome.Applied? <==> n == |plan|)
    && (d.outcome.Applied? ==> Runs(t, plan) && d.world.table == After(t, plan))
    && (d.outcome.Failed? ==> d.outcome.rollbackErrors == [] && n == 0)
    && multiset(d.world.table) == multiset(After(t, plan[..n]))
    && forall x :: x in d.world.seen ==> x in w.seen || Passed(t, plan, x)
  }

  lemma RunLeavesEarlier(t: Table, plan: seq<Argv>, w: World, next: World, d: Done, n: nat)
    requires n <= |plan| && RunLeaves(t, plan, next, d, n)
    requires next.seen == w.seen + [next.table] && Passed(t, plan, next.table)
    ensures RunLeaves(t, plan, w, d, n)
  {
  }

  lemma StepFails(t: Table, plan: seq<Argv>, i: nat, w: World, fs: Faults)
    requires i < |plan| && Runs(t, plan[..i]) && w.table == After(t, plan[..i])
    requires !Succeeds(w, plan[i], fs) && CalmFrom(fs, w.calls + 1)
    ensures RunLeaves(t, plan, w, Apply(w, plan, i, fs), Left(w, plan, i, fs))
  {
    var next := Call(w, plan[i], fs);
    assert next.table == w.table;
    IdlePasses(t, plan, i, next.table);
    if fs(w.calls) != Uncaught {
      RollbackLeaves(t, plan, i, next, fs);
    }
  }

  /** Every run of a plan whose rollback meets no fault but uncaught exceptions leaves the rules as the
      commands in effect make them; all of them when it goes through, none when it reports a failure.
      Each table on the way is one the plan passes. */
  lemma {:induction false} ApplyLeaves(t: Table, plan: seq<Argv>, i: nat, w: World, fs: Faults)
    requires i <= |plan| && Runs(t, plan[..i]) && w.table == After(t, plan[..i])
    requires CalmFrom(fs, Stopped(w, plan, i, fs).calls)
    ensures RunLeaves(t, plan, w, Apply(w, plan, i, fs), Left(w, plan, i, fs))
    decreases |plan| - i
  {
    if i == |plan| {
      assert plan[..i] == plan;
    } else if Succeeds(w, plan[i], fs) {
      var next := Call(w, plan[i], fs);
      RunsStep(t, plan, i);
      IdlePasses(t, plan, i + 1, next.table);
      ApplyLeaves(t, plan, i + 1, next, fs);
      RunLeavesEarlier(t, plan, w, next, Apply(w, plan, i, fs), Left(w, plan, i, fs));
    } else {
      StepFails(t, plan, i, w, fs);
    }
  }

  /** Some call from number `lo` on, of those that were made, meets an uncaught exception. */
  ghost predicate CutShort(fs: Faults, lo: nat, calls: nat)
  {
    exists n :: lo <= n < calls && fs(n) == Uncaught
  }

  lemma {:induction false} CutBack(w: World, applied: seq<Argv>, errors: seq<Argv>, fs: Faults)
    ensures var u := Rollback(w, applied, errors, fs);
            u.world.calls >= w.calls && (LeftBack(w, applied, fs) > 0 <==> CutShort(fs, w.calls, u.world.calls))
    decreases |applied|
  {
    if applied != [] {
      var rest, last := applied[..|applied| - 1], applied[|applied| - 1];
      var inv := Inverted(last);
      if inv.None? {
        CutBack(w, rest, errors + [last], fs);
      } else if fs(w.calls) != Uncaught {
        var next := Call(w, inv.value, fs);
        CutBack(next, rest, if Succeeds(w, inv.value, fs) then errors else errors + [inv.value], fs);
      }
    }
  }

  lemma CutFails(w: World, plan: seq<Argv>, i: nat, fs: Faults)
    requires i < |plan| && !Succeeds(w, plan[i], fs)
    ensures var d, n := Apply(w, plan, i, fs), Left(w, plan, i, fs);
            && d.world.calls > w.calls && n <= i
            && (n > 0 <==> CutShort(fs, if i == 0 then w.calls + 1 else w.calls, d.world.calls))
  {
    if fs(w.calls) != Uncaught {
      CutBack(Call(w, plan[i], fs), plan[..i], [], fs);
    }
  }

  lemma CutLater(fs: Faults, lo: nat, calls: nat)
    requires fs(lo) != Uncaught
    ensures CutShort(fs, lo, calls) <==> CutShort(fs, lo + 1, calls)
  {
  }

  lemma SameEnd(w: World, plan: seq<Argv>, i: nat, fs: Faults)
    requires i < |plan| && Succeeds(w, plan[i], fs)
    ensures var next := Call(w, plan[i], fs);
            Apply(w, plan, i, fs) == Apply(next, plan, i + 1, fs) && Left(w, plan, i, fs) == Left(next, plan, i + 1, fs)
    ensures fs(w.calls) != Uncaught
  {
  }

  lemma {:induction false} CutRun(w: World, plan: seq<Argv>, i: nat, fs: Faults)
    requires i <= |plan|
    ensures var d, n := Apply(w, plan, i, fs), Left(w, plan, i, fs);
            && d.world.calls >= w.calls
            && (0 < n < |plan| <==> CutShort(fs, if i == 0 then w.calls + 1 else w.calls, d.world.calls))
    decreases |plan| - i
  {
    if i < |plan| {
      if Succeeds(w, plan[i], fs) {
        SameEnd(w, plan, i, fs);
        CutRun(Call(w, plan[i], fs), plan, i + 1, fs);
        CutLater(fs, w.calls, Apply(w, plan, i, fs).world.calls);
      } else {
        CutFails(w, plan, i, fs);
      }
    }
  }

  /** Exactly when a run is all or nothing: a run is left with some but not all of its commands in effect
      if and only if a call after the first one meets an exception the executor does not catch. */
  lemma AllOrNothingIff(t: Table, plan: seq<Argv>, w: World, fs: Faults)
    requires w.table == t && CalmFrom(fs, Stopped(w, plan, 0, fs).calls)
    ensures var d, n := Apply(w, plan, 0, fs), Left(w, plan, 0, fs);
            && multiset(d.world.table) == multiset(After(t, plan[..n]))
            && (n == 0 || n == |plan| <==> !CutShort(fs, w.calls + 1, d.world.calls))
  {
    assert plan[..0] == [];
    ApplyLeaves(t, plan, 0, w, fs);
    CutRun(w, plan, 0, fs);
  }

  /** The rollback commands are not made to fail, and no call after the first one meets an uncaught
      exception. */
  ghost predicate Undisturbed(w: World, plan: seq<Argv>, fs: Faults)
  {
    var stop := Stopped(w, plan, 0, fs).calls;
    NoFaultFrom(fs, stop) && !CutShort(fs, w.calls + 1, stop)
  }

  /** Every run of a plan.  When it goes through, every command found its rule and the table is the
      planned one.  Otherwise, if nothing disturbs the rollback, each rollback command finds the rule it
      needs and the original rules are back, in every chain.  Either way each table on the way is one the
      plan passes. */
  lemma ApplyRestores(t: Table, plan: seq<Argv>, w: World, fs: Faults)
    requires w.table == t && Undisturbed(w, plan, fs)
    ensures var d := Apply(w, plan, 0, fs);
            && (d.outcome.Applied? ==> Runs(t, plan) && d.world.table == After(t, plan))
            && (!d.outcome.Applied? ==> multiset(d.world.table) == multiset(t))
            && (d.outcome.Failed? ==> d.outcome.rollbackErrors == [])
            && forall x :: x in d.world.seen ==> x in w.seen || Passed(t, plan, x)
  {
    assert plan[..0] == [];
    ApplyLeaves(t, plan, 0, w, fs);
    AllOrNothingIff(t, plan, w, fs);
  }

  /** Whatever the environment does: a plan that went through found every rule and left the planned table. */
  lemma {:induction false} AppliedIsAfter(t: Table, plan: seq<Argv>, i: nat, w: World, fs: Faults)
    requires i <= |plan| && Runs(t, plan[..i]) && w.table == After(t, plan[..i])
    requires Apply(w, plan, i, fs).outcome == Applied
    ensures Runs(t, plan) && Apply(w, plan, i, fs).world.table == After(t, plan)
    decreases |plan| - i
  {
    if i == |plan| {
      assert plan[..i] == plan;
    } else {
      RunsStep(t, plan, i);
      AppliedIsAfter(t, plan, i + 1, Call(w, plan[i], fs), fs);
    }
  }

  /** Whatever the environment does: a non-zero exit whose error carries no rollback error means
      that the original rules are back. */
  lemma {:induction false} NoErrorsMeansRestored(t: Table, plan: seq<Argv>, i: nat, w: World, fs: Faults)
    requires i <= |plan| && Runs(t, plan[..i]) && w.table == After(t, plan[..i])
    requires Apply(w, plan, i, fs).outcome == Failed(false, [])
    ensures multiset(Apply(w, plan, i, fs).world.table) == multiset(t)
    decreases |plan| - i
  {
    var next := Call(w, plan[i], fs);
    RunsStep(t, plan, i);
    if Succeeds(w, plan[i], fs) {
      NoErrorsMeansRestored(t, plan, i + 1, next, fs);
    } else {
      RollbackRestores(t, plan, i, next, fs);
    }
  }

  /** If the first command does not find its rule, nothing happens and the run fails. */
  lemma FirstFails(w: World, plan: seq<Argv>, fs: Faults)
    requires plan != [] && !RunNat(w.table, plan[0], NoFault).ok
    ensures !Apply(w, plan, 0, fs).outcome.Applied? && Apply(w, plan, 0, fs).world.table == w.table
  {
    assert plan[..0] == [];
    assert !Succeeds(w, plan[0], fs);
  }

  // ----- what an empty error list is worth -----

  /** Step `k` is the first to fail; the calls before it are not disturbed. */
  ghost predicate StopsAt(t: Table, plan: seq<Argv>, k: nat, fs: Faults)
    requires k < |plan|
  {
    && Runs(t, plan[..k])
    && (forall j :: 0 <= j < k ==> fs(j) == NoFault)
    && !RunNat(After(t, plan[..k]), plan[k], fs(k)).ok
  }

  /** Then the rollback starts from the table after the first `k` commands. */
  lemma {:induction false} ApplyStops(t: Table, plan: seq<Argv>, k: nat, i: nat, w: World, fs: Faults)
    returns (at: World)
    requires i <= k < |plan| && StopsAt(t, plan, k, fs) && w.table == After(t, plan[..i]) && w.calls == i
    ensures at.table == After(t, plan[..k]) && at.calls == k + 1
    ensures Apply(w, plan, i, fs) ==
            if fs(k) == Uncaught then Done(at, Escaped)
            else Ended(Rollback(at, plan[..k], [], fs), fs(k) == Unavailable)
    decreases k - i
  {
    if i == k {
      at := Call(w, plan[k], fs);
    } else {
      RunsUpTo(t, plan, k, i + 1);
      RunsStep(t, plan, i);
      at := ApplyStops(t, plan, k, i + 1, Call(w, plan[i], fs), fs);
    }
  }

  lemma {:induction false} RunsUpTo(t: Table, plan: seq<Argv>, k: nat, j: nat)
    requires j <= k <= |plan| && Runs(t, plan[..k])
    ensures Runs(t, plan[..j])
  {
    if j < k {
      RunsStep(t, plan, k - 1);
      RunsUpTo(t, plan, k - 1, j);
    }
  }

  lemma {:induction false} RollbackUnavailable(w: World, applied: seq<Argv>, errors: seq<Argv>, fs: Faults)
    requires forall j :: j >= w.calls ==> fs(j) == Unavailable
    ensures Rollback(w, applied, errors, fs).world.table == w.table && !Rollback(w, applied, errors, fs).escaped
    decreases |applied|
  {
    if applied != [] {
      var rest, last := applied[..|applied| - 1], applied[|applied| - 1];
      var inv := Inverted(last);
      if inv.None? {
        RollbackUnavailable(w, rest, errors + [last], fs);
      } else {
        RollbackUnavailable(Call(w, inv.value, fs), rest, errors + [inv.value], fs);
      }
    }
  }

  /** An error after an exception carries no rollback error although nothing was undone: for every plan
      and every step, when iptables becomes unavailable there the rules stay as the steps before left
      them. */
  lemma UnavailableHidesErrors(t: Table, plan: seq<Argv>, k: nat, fs: Faults)
    requires k < |plan| && Runs(t, plan[..k])
    requires forall j: nat :: fs(j) == if j < k then NoFault else Unavailable
    ensures var d := Apply(World(t, 0, []), plan, 0, fs);
            d.outcome == Failed(true, []) && d.world.table == After(t, plan[..k])
  {
    var at := ApplyStops(t, plan, k, 0, World(t, 0, []), fs);
    RollbackUnavailable(at, plan[..k], [], fs);
  }

  /** When it comes back for the first rollback call only, exactly the last command is undone. */
  lemma OneUndone(t: Table, plan: seq<Argv>, k: nat, fs: Faults)
    requires 0 < k < |plan| && Runs(t, plan[..k])
    requires forall j: nat :: fs(j) == if j < k || j == k + 1 then NoFault else Unavailable
    ensures var d := Apply(World(t, 0, []), plan, 0, fs);
            d.outcome == Failed(true, []) && multiset(d.world.table) == multiset(After(t, plan[..k - 1]))
  {
    var at := ApplyStops(t, plan, k, 0, World(t, 0, []), fs);
    UndoStep(t, plan, k, at, fs);
    RollbackUnfolds(at, plan, k, fs);
    RollbackUnavailable(Call(at, Inverted(plan[k - 1]).value, fs), plan[..k - 1], [], fs);
  }

  /** Whatever the environment does in a run that fails at step `k`, an error without rollback errors
      means that the original rules are back. */
  ghost predicate EmptyMeansRestored(t: Table, plan: seq<Argv>, k: nat, raised: bool)
    requires k < |plan|
  {
    forall fs: Faults ::
      StopsAt(t, plan, k, fs) && Apply(World(t, 0, []), plan, 0, fs).outcome == Failed(raised, []) ==>
        multiset(Apply(World(t, 0, []), plan, 0, fs).world.table) == multiset(t)
  }

  /** One command always changes the multiset of rules. */
  lemma StepChanges(t: Table, plan: seq<Argv>, k: nat)
    requires 0 < k <= |plan| && Runs(t, plan[..k])
    ensures multiset(After(t, plan[..k])) != multiset(After(t, plan[..k - 1]))
  {
    RunsStep(t, plan, k - 1);
    var v, op := After(t, plan[..k - 1]), Parsed(plan[k - 1]).value;
    RunChanges(v, op);
    assert multiset(v)[op.rule] != Change(multiset(v), op)[op.rule];
  }

  lemma NotRestored(t: Table, plan: seq<Argv>, k: nat, fs: Faults)
    requires k < |plan| && StopsAt(t, plan, k, fs)
    requires var d := Apply(World(t, 0, []), plan, 0, fs);
             d.outcome == Failed(true, []) && multiset(d.world.table) != multiset(t)
    ensures !EmptyMeansRestored(t, plan, k, true)
  {
  }

  lemma RaisedGivesNoAssurance(t: Table, plan: seq<Argv>, k: nat)
    requires 0 < k < |plan| && Runs(t, plan[..k])
    ensures !EmptyMeansRestored(t, plan, k, true)
  {
    StepChanges(t, plan, k);
    if multiset(After(t, plan[..k])) != multiset(t) {
      var gone: Faults := j => if j < k then NoFault else Unavailable;
      UnavailableHidesErrors(t, plan, k, gone);
      NotRestored(t, plan, k, gone);
    } else {
      var back: Faults := j => if j < k || j == k + 1 then NoFault else Unavailable;
      OneUndone(t, plan, k, back);
      NotRestored(t, plan, k, back);
    }
  }

  /** The exact worth of an empty error list: it assures restoration if and only if the failing call
      returned a code or was the first one.  In particular it does not help that the applied commands
      together change nothing, since the rollback can stop halfway. */
  lemma EmptyErrorsIff(t: Table, plan: seq<Argv>, k: nat, raised: bool)
    requires k < |plan| && Runs(t, plan[..k])
    ensures EmptyMeansRestored(t, plan, k, raised) <==> !raised || k == 0
  {
    if raised && k > 0 {
      RaisedGivesNoAssurance(t, plan, k);
    } else {
      forall fs: Faults | StopsAt(t, plan, k, fs) && Apply(World(t, 0, []), plan, 0, fs).outcome == Failed(raised, [])
        ensures multiset(Apply(World(t, 0, []), plan, 0, fs).world.table) == multiset(t)
      {
        var w := World(t, 0, []);
        assert plan[..0] == [];
        if raised {
          var at := ApplyStops(t, plan, 0, 0, w, fs);
        } else {
          NoErrorsMeansRestored(t, plan, 0, w, fs);
        }
      }
    }
  }

  // ----- a plan that nothing disturbs -----

  /** If every command finds its rule and nothing is made to fail, the plan goes through. */
  lemma {:induction false} RunsMeansApplied(t: Table, plan: seq<Argv>, i: nat, w: World, fs: Faults)
    requires i <= |plan| && Runs(t, plan) && w.table == After(t, plan[..i]) && NoFaultFrom(fs, w.calls)
    ensures Apply(w, plan, i, fs).outcome == Applied
    decreases |plan| - i
  {
    if i < |plan| {
      assert plan[..|plan|] == plan;
      RunsUpTo(t, plan, |plan|, i + 1);
      RunsStep(t, plan, i);
      RunsMeansApplied(t, plan, i + 1, Call(w, plan[i], fs), fs);
    }
  }

  // ----- a run in the middle of the life of a host -----

  /** The same history after `n` earlier calls and the tables they passed. */
  function Later(w: World, n: nat, seen: seq<Table>): World { World(w.table, n + w.calls, seen + w.seen) }

  /** The faults from call `n` on. */
  function Delayed(fs: Faults, n: nat): Faults { (j: nat) => fs(n + j) }

  lemma LaterCall(w: World, a: Argv, n: nat, seen: seq<Table>, fs: Faults)
    ensures Succeeds(Later(w, n, seen), a, fs) == Succeeds(w, a, Delayed(fs, n))
    ensures Call(Later(w, n, seen), a, fs) == Later(Call(w, a, Delayed(fs, n)), n, seen)
  {
  }

  lemma {:induction false} LaterRollback(w: World, applied: seq<Argv>, errors: seq<Argv>,
      n: nat, seen: seq<Table>, fs: Faults)
    ensures var u := Rollback(w, applied, errors, Delayed(fs, n));
            Rollback(Later(w, n, seen), applied, errors, fs) == Undone(Later(u.world, n, seen), u.errors, u.escaped)
    decreases |applied|
  {
    if applied != [] {
      var rest, last := applied[..|applied| - 1], applied[|applied| - 1];
      var inv := Inverted(last);
      if inv.None? {
        LaterRollback(w, rest, errors + [last], n, seen, fs);
      } else {
        LaterCall(w, inv.value, n, seen, fs);
        var next := Call(w, inv.value, Delayed(fs, n));
        LaterRollback(next, rest, errors, n, seen, fs);
        LaterRollback(next, rest, errors + [inv.value], n, seen, fs);
      }
    }
  }

  /** The end of a run at a step that fails. */
  lemma LaterFails(w: World, plan: seq<Argv>, i: nat, n: nat, seen: seq<Table>, fs: Faults)
    requires i < |plan| && !Succeeds(w, plan[i], Delayed(fs, n))
    ensures var d := Apply(w, plan, i, Delayed(fs, n));
            Apply(Later(w, n, seen), plan, i, fs) == Done(Later(d.world, n, seen), d.outcome)
  {
    LaterCall(w, plan[i], n, seen, fs);
    LaterRollback(Call(w, plan[i], Delayed(fs, n)), plan[..i], [], n, seen, fs);
  }

  /** A run depends on the host's past only through the table it finds. */
  lemma {:induction false} LaterApply(w: World, plan: seq<Argv>, i: nat, n: nat, seen: seq<Table>, fs: Faults)
    requires i <= |plan|
    ensures var d := Apply(w, plan, i, Delayed(fs, n));
            Apply(Later(w, n, seen), plan, i, fs) == Done(Later(d.world, n, seen), d.outcome)
    decreases |plan| - i
  {
    if i < |plan| {
      if Succeeds(w, plan[i], Delayed(fs, n)) {
        LaterCall(w, plan[i], n, seen, fs);
        LaterApply(Call(w, plan[i], Delayed(fs, n)), plan, i + 1, n, seen, fs);
      } else {
        LaterFails(w, plan, i, n, seen, fs);
      }
    }
  }

  // ----- the commands one by one -----

  /** `-D` takes out the first rule that is equal, and leaves all others in their places. */
  lemma {:induction false} RemoveFirstIs(t: Table, r: Rule) returns (i: nat)
    requires r in t
    ensures i < |t| && t[i] == r && r !in t[..i] && RemoveFirst(t, r) == t[..i] + t[i + 1..]
  {
    if t[0] == r {
      i := 0;
      assert t[..0] + t[1..] == t[1..];
    } else {
      var u := t[1..];
      var k := RemoveFirstIs(u, r);
      i := k + 1;
      ConsCut(t, k);
      assert [t[0]] + (u[..k] + u[k + 1..]) == ([t[0]] + u[..k]) + u[k + 1..];
    }
  }

  lemma ConsCut(t: Table, k: nat)
    requires k + 1 < |t|
    ensures t[..k + 1] == [t[0]] + t[1..][..k] && t[k + 2..] == t[1..][k + 1..] && t[k + 1] == t[1..][k]
  {
  }

  /** What one command does, by its words. */
  lemma CommandDoes(t: Table, action: string, args: seq<string>)
    ensures var a, r := ["iptables", "-w", "-t", "nat", action] + args, Meaning(args, false);
            && (action == "-A" ==> RunNat(t, a, NoFault) == Ran(t + [r], true))
            && (action == "-D" ==> RunNat(t, a, NoFault).ok == (r in t))
            && (action == "-D" && r in t ==> RunNat(t, a, NoFault).table == RemoveFirst(t, r))
            && (forall f :: f != NoFault ==> RunNat(t, a, f) == Ran(t, false))
  {
    if action == "-A" || action == "-D" {
      CommandParsed(action, args);
      assert Command(action, args) == ["iptables", "-w", "-t", "nat", action] + args;
    }
  }

  /** The inverse commands, the last one first. */
  function Undos(applied: seq<Argv>): seq<Argv>
    requires forall i :: 0 <= i < |applied| ==> Inverted(applied[i]).Some?
  {
    if applied == [] then []
    else [Inverted(applied[|applied| - 1]).value] + Undos(applied[..|applied| - 1])
  }

  lemma {:induction false} UndosAt(applied: seq<Argv>, k: nat)
    requires (forall i :: 0 <= i < |applied| ==> Inverted(applied[i]).Some?) && k < |applied|
    ensures |Undos(applied)| == |applied| && Undos(applied)[k] == Inverted(applied[|applied| - 1 - k]).value
  {
    if |applied| > 1 {
      UndosAt(applied[..|applied| - 1], if k == 0 then 0 else k - 1);
    }
  }

  /** When every rollback call fails, the errors name every applied command's inverse, the last one first. */
  lemma {:induction false} AllErrors(w: World, applied: seq<Argv>, errors: seq<Argv>, fs: Faults)
    requires forall i :: 0 <= i < |applied| ==> Inverted(applied[i]).Some?
    requires forall j :: j >= w.calls ==> fs(j) == ExitCode
    ensures Rollback(w, applied, errors, fs).errors == errors + Undos(applied)
    ensures Rollback(w, applied, errors, fs).world.calls == w.calls + |applied|
    decreases |applied|
  {
    if applied == [] {
      assert errors + [] == errors;
    } else {
      var rest, inv := applied[..|applied| - 1], Inverted(applied[|applied| - 1]).value;
      OneError(w, applied, errors, fs);
      AllErrors(Call(w, inv, fs), rest, errors + [inv], fs);
      assert errors + ([inv] + Undos(rest)) == (errors + [inv]) + Undos(rest);
    }
  }

  lemma OneError(w: World, applied: seq<Argv>, errors: seq<Argv>, fs: Faults)
    requires applied != [] && Inverted(applied[|applied| - 1]).Some? && fs(w.calls) == ExitCode
    ensures var inv := Inverted(applied[|applied| - 1]).value;
            Rollback(w, applied, errors, fs) == Rollback(Call(w, inv, fs), applied[..|applied| - 1], errors + [inv], fs)
  {
  }

  /** The command deletes, or appends. */
  predicate Acts(a: Argv, deletes: bool) { Parsed(a).Some? && Parsed(a).value.Delete? == deletes }

  /** A plan of deletions and appends in turn has as many rules as before after each pair, and one fewer
      in between. */
  lemma AlternatingSize(t: Table, plan: seq<Argv>, k: nat)
    requires k <= |plan| && Runs(t, plan[..k])
    requires forall i: nat :: i < |plan| ==> Acts(plan[i], i % 2 == 0)
    ensures |After(t, plan[..k])| == |t| - k % 2
  {
    var size := (i: nat) => if i <= |plan| then |After(t, plan[..i])| else 0;
    forall i: nat | i < k
      ensures size(i + 1) == size(i) + if i % 2 == 0 then -1 else 1
    {
      RunsUpTo(t, plan, k, i + 1);
      NextSize(t, plan, i, i % 2 == 0);
    }
    assert plan[..0] == [] && size(0) == |t|;
    InTurn(size, k);
  }

  lemma {:induction false} InTurn(size: nat -> int, k: nat)
    requires forall i: nat :: i < k ==> size(i + 1) == size(i) + if i % 2 == 0 then -1 else 1
    ensures size(k) == size(0) - k % 2
  {
    if k > 0 {
      InTurn(size, k - 1);
    }
  }

  lemma NextSize(t: Table, plan: seq<Argv>, i: nat, deletes: bool)
    requires i < |plan| && Runs(t, plan[..i + 1]) && Acts(plan[i], deletes)
    ensures Runs(t, plan[..i]) && |After(t, plan[..i + 1])| == |After(t, plan[..i])| + if deletes then -1 else 1
  {
    RunsStep(t, plan, i);
    StepSize(After(t, plan[..i]), plan[i], deletes);
  }

  lemma StepSize(t: Table, a: Argv, deletes: bool)
    requires RunNat(t, a, NoFault).ok && Acts(a, deletes)
    ensures |RunNat(t, a, NoFault).table| == |t| + if deletes then -1 else 1
  {
    OpSize(t, Parsed(a).value);
  }

  lemma OpSize(t: Table, op: Op)
    requires RunOp(t, op).ok
    ensures |RunOp(t, op).table| == |t| + if op.Append? then 1 else -1
  {
    if op.Delete? {
      var i := RemoveFirstIs(t, op.rule);
    }
  }

  // ----- the history is complete -----

  /** From `w` to `u` one table was recorded per call, the last of them the one that is there. */
  ghost predicate Recorded(w: World, u: World)
  {
    && w.seen <= u.seen && |u.seen| - |w.seen| == u.calls - w.calls
    && (if u.calls == w.calls then u.table == w.table else u.seen[|u.seen| - 1] == u.table)
  }

  lemma CallRecorded(w: World, a: Argv, fs: Faults)
    ensures var u := Call(w, a, fs); Recorded(w, u) && u.calls == w.calls + 1
    ensures Call(w, a, fs).seen == w.seen + [RunNat(w.table, a, fs(w.calls)).table]
  {
  }

  lemma RecordedOn(w: World, u: World, v: World)
    requires Recorded(w, u) && Recorded(u, v) && u.calls > w.calls
    ensures Recorded(w, v)
  {
  }

  lemma {:induction false} RollbackRecorded(w: World, applied: seq<Argv>, errors: seq<Argv>, fs: Faults)
    ensures Recorded(w, Rollback(w, applied, errors, fs).world)
    decreases |applied|
  {
    if applied != [] {
      var rest, last := applied[..|applied| - 1], applied[|applied| - 1];
      var inv := Inverted(last);
      if inv.None? {
        RollbackRecorded(w, rest, errors + [last], fs);
      } else {
        var next := Call(w, inv.value, fs);
        CallRecorded(w, inv.value, fs);
        var e := if Succeeds(w, inv.value, fs) then errors else errors + [inv.value];
        if !(fs(w.calls) == Uncaught) {
          RollbackRecorded(next, rest, e, fs);
          RecordedOn(w, next, Rollback(next, rest, e, fs).world);
        }
      }
    }
  }

  /** So what is said about the tables seen is said about the table after every call. */
  lemma {:induction false} ApplyRecorded(w: World, plan: seq<Argv>, i: nat, fs: Faults)
    requires i <= |plan|
    ensures Recorded(w, Apply(w, plan, i, fs).world)
    decreases |plan| - i
  {
    if i < |plan| {
      var next := Call(w, plan[i], fs);
      CallRecorded(w, plan[i], fs);
      if Succeeds(w, plan[i], fs) {
        ApplyRecorded(next, plan, i + 1, fs);
        RecordedOn(w, next, Apply(w, plan, i, fs).world);
      } else if fs(w.calls) != Uncaught {
        RollbackRecorded(next, plan[..i], [], fs);
        RecordedOn(w, next, Apply(w, plan, i, fs).world);
      }
    }
  }
}
