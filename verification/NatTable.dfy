/** The nat table as a list of rules, the `iptables` commands on it, and the executor that undoes a
    plan when a step fails. */
module NatTable {
  import opened Common
  import opened Spelling

  type Argv = seq<string>

  /** Words of a rule, the chain first, in the spelling of `Meaning`; a chain is the sub-sequence of the
      rules that name it. */
  type Rule = seq<string>
  type Table = seq<Rule>

  /** What the environment does to one call: nothing, a non-zero exit, FileNotFoundError or a timeout, or
      an exception the executor does not catch, such as another OSError when no process can be forked.
      A failed or timed-out call has no effect. */
  datatype Fault = NoFault | ExitCode | Unavailable | Uncaught

  const NAT: Argv := ["iptables", "-w", "-t", "nat"]
  const APPEND := "-A"
  const DELETE := "-D"

  function Command(action: string, args: seq<string>): Argv { NAT + [action] + args }

  /** `-A` and `-D` with the rule they name. */
  datatype Op = Append(rule: Rule) | Delete(rule: Rule) {
    function Inverse(): Op { if Append? then Delete(rule) else Append(rule) }
  }

  /** What `iptables -w -t nat` makes of its arguments. */
  function Parsed(a: Argv): Option<Op>
  {
    if |a| < 5 || a[..4] != NAT then None
    else if a[4] == APPEND then Some(Append(Meaning(a[5..], false)))
    else if a[4] == DELETE then Some(Delete(Meaning(a[5..], false)))
    else None
  }

  /** `-D` deletes the first rule equal to the given one. */
  function RemoveFirst(t: Table, r: Rule): Table
    requires r in t
  {
    if t[0] == r then t[1..] else [t[0]] + RemoveFirst(t[1..], r)
  }

  datatype Ran = Ran(table: Table, ok: bool)

  function RunOp(t: Table, op: Op): Ran
  {
    match op
    case Append(r) => Ran(t + [r], true)
    case Delete(r) => if r in t then Ran(RemoveFirst(t, r), true) else Ran(t, false)
  }

  /** One call of `iptables -w -t nat`. */
  function RunNat(t: Table, a: Argv, f: Fault): Ran
  {
    var op := Parsed(a);
    if f != NoFault || op.None? then Ran(t, false) else RunOp(t, op.value)
  }

  // ----- inversion -----

  predicate IsAction(tok: string) { tok == APPEND || tok == DELETE }

  function Flipped(tok: string): string { if tok == DELETE then APPEND else DELETE }

  function ActionIndex(a: Argv, lo: nat): (i: nat)
    requires lo <= |a|
    ensures lo <= i <= |a|
    ensures i < |a| ==> IsAction(a[i])
    ensures forall j :: lo <= j < i ==> !IsAction(a[j])
    decreases |a| - lo
  {
    if lo == |a| || IsAction(a[lo]) then lo else ActionIndex(a, lo + 1)
  }

  /** The first `-A` or `-D` flipped; None where the source raises ValueError. */
  function Inverted(a: Argv): Option<Argv>
  {
    var i := ActionIndex(a, 0);
    if i == |a| then None else Some(a[i := Flipped(a[i])])
  }

  /** `invert_iptables_argv`. */
  method InvertIptablesArgv(argv: Argv) returns (r: Option<Argv>)
    ensures r == Inverted(argv)
  {
    for i := 0 to |argv|
      invariant ActionIndex(argv, 0) == ActionIndex(argv, i)
    {
      if argv[i] == DELETE {
        return Some(argv[i := APPEND]);
      }
      if argv[i] == APPEND {
        return Some(argv[i := DELETE]);
      }
    }
    return None;
  }

  lemma FirstAction(a: Argv, i: nat)
    requires i < |a| && IsAction(a[i]) && forall j :: 0 <= j < i ==> !IsAction(a[j])
    ensures ActionIndex(a, 0) == i
  {
  }

  /** Inverting twice gives the command back, for every command that can be inverted. */
  lemma InvertTwice(a: Argv)
    requires Inverted(a).Some?
    ensures Inverted(Inverted(a).value) == Some(a)
  {
    var i := ActionIndex(a, 0);
    var b := a[i := Flipped(a[i])];
    FirstAction(b, i);
    assert Flipped(b[i]) == a[i];
    assert b[i := a[i]] == a;
  }

  /** The inverted command does the inverse operation. */
  lemma InvertedParsed(a: Argv)
    requires Parsed(a).Some?
    ensures Inverted(a).Some? && Parsed(Inverted(a).value) == Some(Parsed(a).value.Inverse())
  {
    forall j | 0 <= j < 4
      ensures a[j] == NAT[j]
    {
      assert a[j] == a[..4][j];
    }
    FirstAction(a, 4);
    var b := Inverted(a).value;
    assert b[..4] == NAT && b[5..] == a[5..];
  }

  lemma CommandParsed(action: string, args: seq<string>)
    requires IsAction(action)
    ensures var r := Meaning(args, false);
            Parsed(Command(action, args)) == Some(if action == APPEND then Append(r) else Delete(r))
  {
    var a := Command(action, args);
    assert a[..4] == NAT && a[4] == action && a[5..] == args;
  }

  // ----- the executor, as a function of the environment's faults -----

  /** The host: its table, the number of calls made, and the tables after each of them. */
  datatype World = World(table: Table, calls: nat, seen: seq<Table>)

  /** Call number `n` meets fault `fs(n)`. */
  type Faults = nat -> Fault

  predicate Succeeds(w: World, a: Argv, fs: Faults)
  {
    RunNat(w.table, a, fs(w.calls)).ok
  }

  function Call(w: World, a: Argv, fs: Faults): World
  {
    var t := RunNat(w.table, a, fs(w.calls)).table;
    World(t, w.calls + 1, w.seen + [t])
  }

  /** `_rollback_applied`: the last command first; a command that fails is noted in `errors`, and an
      uncaught exception ends the pass. */
  datatype Undone = Undone(world: World, errors: seq<Argv>, escaped: bool)

  function Rollback(w: World, applied: seq<Argv>, errors: seq<Argv>, fs: Faults): Undone
    decreases |applied|
  {
    if applied == [] then Undone(w, errors, false)
    else
      var rest, last := applied[..|applied| - 1], applied[|applied| - 1];
      var inv := Inverted(last);
      if inv.None? then Rollback(w, rest, errors + [last], fs)
      else if Succeeds(w, inv.value, fs) then Rollback(Call(w, inv.value, fs), rest, errors, fs)
      else if fs(w.calls) == Uncaught then Undone(Call(w, inv.value, fs), errors, true)
      else Rollback(Call(w, inv.value, fs), rest, errors + [inv.value], fs)
  }

  /** Normal return; IptablesApplyError, with whether the failing call raised instead of returning a code
      and the rollback errors the error carries; or the uncaught exception. */
  datatype Outcome = Applied | Failed(raised: bool, rollbackErrors: seq<Argv>) | Escaped

  datatype Done = Done(world: World, outcome: Outcome)

  /** `apply_iptables_plan` from step `i` on.  When the failing call raised instead of returning a code,
      the source drops the rollback errors; after an uncaught exception it does not roll back. */
  function Apply(w: World, plan: seq<Argv>, i: nat, fs: Faults): Done
    requires i <= |plan|
    decreases |plan| - i
  {
    if i == |plan| then Done(w, Applied)
    else if Succeeds(w, plan[i], fs) then Apply(Call(w, plan[i], fs), plan, i + 1, fs)
    else if fs(w.calls) == Uncaught then Done(Call(w, plan[i], fs), Escaped)
    else Ended(Rollback(Call(w, plan[i], fs), plan[..i], [], fs), fs(w.calls) == Unavailable)
  }

  function Ended(u: Undone, raised: bool): Done
  {
    Done(u.world, if u.escaped then Escaped else Failed(raised, if raised then [] else u.errors))
  }

  /** The host when the first failing step has been called, or the plan is through. */
  function Stopped(w: World, plan: seq<Argv>, i: nat, fs: Faults): World
    requires i <= |plan|
    decreases |plan| - i
  {
    if i == |plan| then w
    else if Succeeds(w, plan[i], fs) then Stopped(Call(w, plan[i], fs), plan, i + 1, fs)
    else Call(w, plan[i], fs)
  }

  // ----- the executor as a program on the host -----

  datatype Proc = Success | NonZero | Raised | Escapes

  class Host {
    var world: World
    const faults: Faults

    constructor (t: Table, fs: Faults)
      ensures world == World(t, 0, []) && faults == fs
    {
      world, faults := World(t, 0, []), fs;
    }

    /** `subprocess.run`. */
    method Run(argv: Argv) returns (p: Proc)
      modifies this
      ensures world == Call(old(world), argv, faults)
      ensures p == Success <==> Succeeds(old(world), argv, faults)
      ensures p == Raised <==> faults(old(world.calls)) == Unavailable
      ensures p == Escapes <==> faults(old(world.calls)) == Uncaught
    {
      var fault := faults(world.calls);
      var ran := RunNat(world.table, argv, fault);
      world := World(ran.table, world.calls + 1, world.seen + [ran.table]);
      p := match fault
        case Unavailable => Raised
        case Uncaught => Escapes
        case _ => if ran.ok then Success else NonZero;
    }

    /** `_rollback_applied`. */
    method RollbackApplied(applied: seq<Argv>) returns (errors: seq<Argv>, escaped: bool)
      modifies this
      ensures Undone(world, errors, escaped) == Rollback(old(world), applied, [], faults)
    {
      errors, escaped := [], false;
      var k := |applied|;
      assert applied[..k] == applied;
      while k > 0
        invariant 0 <= k <= |applied| && !escaped
        invariant Rollback(old(world), applied, [], faults) == Rollback(world, applied[..k], errors, faults)
      {
        k := k - 1;
        assert applied[..k + 1][..k] == applied[..k];
        var inv := InvertIptablesArgv(applied[k]);
        if inv.None? {
          errors := errors + [applied[k]];
        } else {
          var p := Run(inv.value);
          if p == Escapes {
            escaped := true;
            return;
          }
          if p != Success {
            errors := errors + [inv.value];
          }
        }
      }
    }

    /** `apply_iptables_plan`. */
    method ApplyIptablesPlan(plan: seq<Argv>) returns (out: Outcome)
      modifies this
      ensures Done(world, out) == Apply(old(world), plan, 0, faults)
    {
      var applied: seq<Argv> := [];
      for i := 0 to |plan|
        invariant applied == plan[..i]
        invariant Apply(old(world), plan, 0, faults) == Apply(world, plan, i, faults)
      {
        var p := Run(plan[i]);
        if p == Escapes {
          return Escaped;
        }
        if p == Raised {
          var _, escaped := RollbackApplied(applied);
          return if escaped then Escaped else Failed(true, []);
        }
        if p == NonZero {
          var errors, escaped := RollbackApplied(applied);
          return if escaped then Escaped else Failed(false, errors);
        }
        applied := applied + [plan[i]];
      }
      return Applied;
    }
  }
}
