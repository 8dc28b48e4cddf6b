/** Requests of fronts whose commands interleave: the handlers run in a pool of threads without a lock. */
module FrontOverlap {
  import opened Common
  import opened Ipv4
  import opened RulesText
  import opened NatTable
  import opened NatRuns
  import opened Fronts
  import opened FrontRuns

  // ----- the executor, call by call -----

  /** A plan that is being run: `at` commands of it are in effect, and `back` says that a step has failed
      and the rollback runs. */
  datatype Exec = Exec(plan: seq<Argv>, at: nat, back: bool)

  predicate IsExec(x: Exec)
  {
    && (forall i :: 0 <= i < |x.plan| ==> Inverted(x.plan[i]).Some?)
    && if x.back then 0 < x.at <= |x.plan| else x.at < |x.plan|
  }

  /** None when the run has ended. */
  datatype Stepped = Stepped(table: Table, rest: Option<Exec>)

  /** One call of iptables. */
  function StepExec(t: Table, x: Exec, fault: Fault): (s: Stepped)
    requires IsExec(x)
    ensures s.rest.Some? ==> IsExec(s.rest.value) && s.rest.value.plan == x.plan
  {
    if fault == Uncaught then Stepped(t, None)
    else if x.back then
      Stepped(RunNat(t, Inverted(x.plan[x.at - 1]).value, fault).table,
              if x.at == 1 then None else Some(x.(at := x.at - 1)))
    else
      var ran := RunNat(t, x.plan[x.at], fault);
      if ran.ok then Stepped(ran.table, if x.at + 1 == |x.plan| then None else Some(x.(at := x.at + 1)))
      else Stepped(t, if x.at == 0 then None else Some(x.(back := true)))
  }

  /** What the executor makes of the host from here on if nobody else calls iptables. */
  function Rest(w: World, x: Exec, fs: Faults): World
    requires IsExec(x)
  {
    if x.back then Rollback(w, x.plan[..x.at], [], fs).world else Apply(w, x.plan, x.at, fs).world
  }

  lemma {:induction false} ErrorsIrrelevant(w: World, applied: seq<Argv>,
      errors: seq<Argv>, other: seq<Argv>, fs: Faults)
    ensures Rollback(w, applied, errors, fs).world == Rollback(w, applied, other, fs).world
    decreases |applied|
  {
    if applied != [] {
      var rest, last := applied[..|applied| - 1], applied[|applied| - 1];
      var inv := Inverted(last);
      if inv.None? {
        ErrorsIrrelevant(w, rest, errors + [last], other + [last], fs);
      } else {
        ErrorsIrrelevant(Call(w, inv.value, fs), rest, errors, other, fs);
        ErrorsIrrelevant(Call(w, inv.value, fs), rest, errors + [inv.value], other + [inv.value], fs);
      }
    }
  }

  lemma RollbackStep(w: World, plan: seq<Argv>, k: nat, fs: Faults)
    requires 0 < k <= |plan| && Inverted(plan[k - 1]).Some?
    ensures var next := Call(w, Inverted(plan[k - 1]).value, fs);
            Rollback(w, plan[..k], [], fs).world ==
            if fs(w.calls) == Uncaught then next else Rollback(next, plan[..k - 1], [], fs).world
  {
    var inv := Inverted(plan[k - 1]).value;
    assert plan[..k][..k - 1] == plan[..k - 1];
    ErrorsIrrelevant(Call(w, inv, fs), plan[..k - 1], [] + [inv], [], fs);
  }

  lemma ApplyStep(w: World, plan: seq<Argv>, i: nat, fs: Faults)
    requires i < |plan|
    ensures var next := Call(w, plan[i], fs);
            Apply(w, plan, i, fs).world ==
            if Succeeds(w, plan[i], fs) then Apply(next, plan, i + 1, fs).world
            else if fs(w.calls) == Uncaught then next
            else Rollback(next, plan[..i], [], fs).world
  {
  }

  /** What is left of the executor after a call. */
  function RestAfter(w: World, s: Stepped, fs: Faults): World
    requires s.rest.Some? ==> IsExec(s.rest.value)
  {
    var next := World(s.table, w.calls + 1, w.seen + [s.table]);
    if s.rest.None? then next else Rest(next, s.rest.value, fs)
  }

  lemma BackIsExecutor(w: World, x: Exec, fs: Faults)
    requires IsExec(x) && x.back
    ensures Rest(w, x, fs) == RestAfter(w, StepExec(w.table, x, fs(w.calls)), fs)
  {
    RollbackStep(w, x.plan, x.at, fs);
    assert x.plan[..0] == [];
  }

  lemma SuccessIsExecutor(w: World, x: Exec, fs: Faults)
    requires IsExec(x) && !x.back && Succeeds(w, x.plan[x.at], fs)
    ensures Rest(w, x, fs) == RestAfter(w, StepExec(w.table, x, fs(w.calls)), fs)
  {
    ApplyStep(w, x.plan, x.at, fs);
    var next := Call(w, x.plan[x.at], fs);
    assert StepExec(w.table, x, fs(w.calls)) ==
           Stepped(next.table, if x.at + 1 == |x.plan| then None else Some(x.(at := x.at + 1)));
  }

  lemma FailureIsExecutor(w: World, x: Exec, fs: Faults)
    requires IsExec(x) && !x.back && !Succeeds(w, x.plan[x.at], fs)
    ensures Rest(w, x, fs) == RestAfter(w, StepExec(w.table, x, fs(w.calls)), fs)
  {
    ApplyStep(w, x.plan, x.at, fs);
    assert x.plan[..0] == [];
  }

  /** Call by call a request does what the executor does. */
  lemma StepIsExecutor(w: World, x: Exec, fs: Faults)
    requires IsExec(x)
    ensures Rest(w, x, fs) == RestAfter(w, StepExec(w.table, x, fs(w.calls)), fs)
  {
    if x.back {
      BackIsExecutor(w, x, fs);
    } else if Succeeds(w, x.plan[x.at], fs) {
      SuccessIsExecutor(w, x, fs);
    } else {
      FailureIsExecutor(w, x, fs);
    }
  }

  // ----- what the commands of a front count -----

  /** How often the rules of the front are there when the first `k` commands of a plan are in effect. */
  ghost predicate Counts(m: multiset<Rule>, f: Front, dest: Option<string>, ops: seq<Op>, k: nat)
    requires k <= |ops|
  {
    forall ip ::
      && m[DnatRule(f, ip)] == One(dest, ip) + Net(ops, k, DnatRule(f, ip))
      && m[MasqRule(f, ip)] == One(dest, ip) + Net(ops, k, MasqRule(f, ip))
  }

  lemma OpCounts(t: Table, op: Op, r: Rule)
    requires RunOp(t, op).ok
    ensures multiset(RunOp(t, op).table)[r] == multiset(t)[r] + Delta(op, r)
  {
    RunChanges(t, op);
  }

  /** A plan that starts by deleting gets on only if the front points where detection said. */
  ghost predicate Fits(dest: Option<string>, from: Option<string>, k: nat)
  {
    if from.None? then dest.None? else k > 0 ==> from == dest
  }

  lemma Forward(t: Table, f: Front, dest: Option<string>, from: Option<string>, to: Option<string>, k: nat)
    requires var ops := PairOps(f, from, to);
             && k < |ops| && Counts(multiset(t), f, dest, ops, k) && Fits(dest, from, k) && RunOp(t, ops[k]).ok
    ensures Counts(multiset(RunOp(t, PairOps(f, from, to)[k]).table), f, dest, PairOps(f, from, to), k + 1)
    ensures Fits(dest, from, k + 1)
  {
    var ops := PairOps(f, from, to);
    forall ip
      ensures multiset(RunOp(t, ops[k]).table)[DnatRule(f, ip)] == One(dest, ip) + Net(ops, k + 1, DnatRule(f, ip))
      ensures multiset(RunOp(t, ops[k]).table)[MasqRule(f, ip)] == One(dest, ip) + Net(ops, k + 1, MasqRule(f, ip))
    {
      OpCounts(t, ops[k], DnatRule(f, ip));
      OpCounts(t, ops[k], MasqRule(f, ip));
    }
    if k == 0 && from.Some? {
      assert ops[0] == Delete(DnatRule(f, from.value));
      assert multiset(t)[DnatRule(f, from.value)] == One(dest, from.value) + Net(ops, 0, DnatRule(f, from.value));
    }
  }

  /** An appended rule is there to be deleted again. */
  lemma AppendedIsThere(t: Table, f: Front, dest: Option<string>, from: Option<string>, to: Option<string>, k: nat)
    requires var ops := PairOps(f, from, to);
             && 0 < k <= |ops| && Counts(multiset(t), f, dest, ops, k) && Fits(dest, from, k) && ops[k - 1].Append?
    ensures PairOps(f, from, to)[k - 1].rule in t
  {
    var ops := PairOps(f, from, to);
    var r := ops[k - 1].rule;
    NetDnat(f, from, to, k, to.value);
    NetMasq(f, from, to, k, to.value);
    assert r == DnatRule(f, to.value) || r == MasqRule(f, to.value);
    assert multiset(t)[r] > 0;
  }

  lemma Backward(t: Table, f: Front, dest: Option<string>, from: Option<string>, to: Option<string>, k: nat)
    requires var ops := PairOps(f, from, to);
             0 < k <= |ops| && Counts(multiset(t), f, dest, ops, k) && Fits(dest, from, k)
    ensures var ran := RunOp(t, PairOps(f, from, to)[k - 1].Inverse());
            ran.ok && Counts(multiset(ran.table), f, dest, PairOps(f, from, to), k - 1)
  {
    var ops := PairOps(f, from, to);
    var op := ops[k - 1].Inverse();
    if op.Delete? {
      AppendedIsThere(t, f, dest, from, to, k);
    }
    forall ip
      ensures multiset(RunOp(t, op).table)[DnatRule(f, ip)] == One(dest, ip) + Net(ops, k - 1, DnatRule(f, ip))
      ensures multiset(RunOp(t, op).table)[MasqRule(f, ip)] == One(dest, ip) + Net(ops, k - 1, MasqRule(f, ip))
    {
      OpCounts(t, op, DnatRule(f, ip));
      OpCounts(t, op, MasqRule(f, ip));
    }
  }

  lemma CountsLive(m: multiset<Rule>, f: Front, dest: Option<string>, from: Option<string>, to: Option<string>, k: nat)
    requires k <= |PairOps(f, from, to)| && Counts(m, f, dest, PairOps(f, from, to), k) && Fits(dest, from, k)
    ensures OneLive(m, f)
    ensures k == 0 ==> Pointed(m, f, dest)
    ensures k == |PairOps(f, from, to)| > 0 ==> Pointed(m, f, to)
  {
    var live := if k == 0 then dest else if k > Base(from) then to else None;
    forall ip
      ensures m[DnatRule(f, ip)] == One(live, ip)
      ensures k == 0 ==> m[MasqRule(f, ip)] == One(dest, ip)
      ensures k == |PairOps(f, from, to)| > 0 ==> m[DnatRule(f, ip)] == One(to, ip) == m[MasqRule(f, ip)]
    {
      NetDnat(f, from, to, k, ip);
      NetMasq(f, from, to, k, ip);
    }
    assert LiveAt(m, f, live);
  }

  // ----- requests in flight -----

  /** A request of a front between its listing and its last command. */
  datatype Job = Job(front: Front, from: Option<string>, to: Option<string>, exec: Exec)

  /** The nat table and the requests in flight. */
  datatype Sys = Sys(table: Table, jobs: map<nat, Job>)

  /** A request reads a listing and plans; a request in flight makes one call of iptables. */
  datatype Event = Begin(id: nat, req: Request, listing: seq<Line>) | Step(id: nat, fault: Fault)

  ghost predicate IsJob(j: Job)
  {
    IsExec(j.exec) && j.exec.plan == PairPlan(j.front, j.from, j.to) && IsAddr(j.from) && IsDest(j.to)
  }

  /** Rollback calls are not made to fail, and no call after the first one meets an uncaught exception. */
  predicate Tolerated(j: Job, fault: Fault)
  {
    (j.exec.back ==> fault == NoFault) && (fault == Uncaught ==> j.exec.at == 0)
  }

  ghost predicate Enabled(s: Sys, e: Event)
  {
    match e
    case Begin(id, req, listing) => id !in s.jobs && Lists(listing, s.table)
    case Step(id, fault) => id in s.jobs && IsExec(s.jobs[id].exec) && Tolerated(s.jobs[id], fault)
  }

  function Next(s: Sys, e: Event): Sys
    requires e.Step? ==> e.id in s.jobs && IsExec(s.jobs[e.id].exec)
  {
    match e
    case Begin(id, req, listing) =>
      var plan := PlanOf(req, listing);
      if plan.None? || plan.value == [] then s
      else Started(s, id, Job(req.front, FrontDestination(listing, req.front), Wanted(req), Exec(plan.value, 0, false)))
    case Step(id, fault) =>
      var j := s.jobs[id];
      var a := StepExec(s.table, j.exec, fault);
      Continued(s, id, a)
  }

  function Started(s: Sys, id: nat, j: Job): Sys { s.(jobs := s.jobs[id := j]) }

  function Continued(s: Sys, id: nat, a: Stepped): Sys
    requires id in s.jobs
  {
    Sys(a.table, if a.rest.None? then s.jobs - {id} else s.jobs[id := s.jobs[id].(exec := a.rest.value)])
  }

  /** No request begins while another one of the same front is in flight. */
  ghost predicate Apart(s: Sys, e: Event)
  {
    e.Begin? ==> forall k :: k in s.jobs ==> Comment(s.jobs[k].front) != Comment(e.req.front)
  }

  // ----- the invariant -----

  /** The front points to `dest`, except for the commands in effect of the request in flight. */
  ghost predicate FrontAt(s: Sys, f: Front, dest: Option<string>)
  {
    && IsDest(dest)
    && (forall k :: k in s.jobs && s.jobs[k].front == f ==> Midway(s.table, s.jobs[k], dest))
    && (Idle(s, f) ==> Pointed(multiset(s.table), f, dest))
  }

  ghost predicate Idle(s: Sys, f: Front) { forall k :: k in s.jobs ==> s.jobs[k].front != f }

  ghost predicate JobsOk(s: Sys, fronts: set<Front>)
  {
    && (forall k :: k in s.jobs ==> IsJob(s.jobs[k]) && s.jobs[k].front in fronts)
    && (forall k, l :: k in s.jobs && l in s.jobs && s.jobs[k].front == s.jobs[l].front ==> k == l)
  }

  ghost predicate Midway(t: Table, j: Job, dest: Option<string>)
  {
    var ops := PairOps(j.front, j.from, j.to);
    j.exec.at <= |ops| && Counts(multiset(t), j.front, dest, ops, j.exec.at) && Fits(dest, j.from, j.exec.at)
  }

  lemma JobMeans(j: Job)
    requires IsJob(j)
    ensures Means(j.exec.plan, PairOps(j.front, j.from, j.to))
  {
    if j.to.Some? {
      DottedChars(j.to.value, 3);
    }
    PlanMeans(j.front, j.from, j.to);
  }

  lemma PlanIsExec(f: Front, from: Option<string>, to: Option<string>)
    requires IsAddr(from) && IsAddr(to) && PairPlan(f, from, to) != []
    ensures IsExec(Exec(PairPlan(f, from, to), 0, false))
  {
    var p := PairPlan(f, from, to);
    PlanMeans(f, from, to);
    forall i | 0 <= i < |p|
      ensures Inverted(p[i]).Some?
    {
      InvertedParsed(p[i]);
    }
  }

  /** What the next call does when it is not made to fail. */
  function NextOp(x: Exec, ops: seq<Op>): Op
    requires IsExec(x) && |ops| == |x.plan|
  {
    if x.back then ops[x.at - 1].Inverse() else ops[x.at]
  }

  lemma RunMeans(t: Table, a: Argv, op: Op, fault: Fault)
    requires Parsed(a) == Some(op)
    ensures RunNat(t, a, fault) == if fault == NoFault then RunOp(t, op) else Ran(t, false)
  {
  }

  lemma UndoMeans(t: Table, a: Argv, op: Op, fault: Fault)
    requires Parsed(a) == Some(op) && Inverted(a).Some?
    ensures RunNat(t, Inverted(a).value, fault) == if fault == NoFault then RunOp(t, op.Inverse()) else Ran(t, false)
  {
    InvertedParsed(a);
    RunMeans(t, Inverted(a).value, op.Inverse(), fault);
  }

  lemma BackMeans(t: Table, x: Exec, ops: seq<Op>)
    requires IsExec(x) && Means(x.plan, ops) && x.back
    ensures StepExec(t, x, NoFault) ==
            Stepped(RunOp(t, ops[x.at - 1].Inverse()).table, if x.at == 1 then None else Some(x.(at := x.at - 1)))
  {
    UndoMeans(t, x.plan[x.at - 1], ops[x.at - 1], NoFault);
  }

  lemma ForwardMeans(t: Table, x: Exec, ops: seq<Op>, fault: Fault)
    requires IsExec(x) && Means(x.plan, ops) && !x.back && fault != Uncaught
    ensures StepExec(t, x, fault) ==
            if fault == NoFault && RunOp(t, ops[x.at]).ok
            then Stepped(RunOp(t, ops[x.at]).table, if x.at + 1 == |x.plan| then None else Some(x.(at := x.at + 1)))
            else Stepped(t, if x.at == 0 then None else Some(x.(back := true)))
  {
    RunMeans(t, x.plan[x.at], ops[x.at], fault);
  }

  /** The table after a step. */
  lemma StepMeans(t: Table, x: Exec, ops: seq<Op>, fault: Fault)
    requires IsExec(x) && Means(x.plan, ops)
    ensures StepExec(t, x, fault).table in {t, RunOp(t, NextOp(x, ops)).table}
  {
    if x.back {
      UndoMeans(t, x.plan[x.at - 1], ops[x.at - 1], fault);
    } else {
      RunMeans(t, x.plan[x.at], ops[x.at], fault);
    }
  }

  /** How the front stands after a step of its own request. */
  ghost predicate StandsAfter(a: Stepped, j: Job, dest: Option<string>)
  {
    && OneLive(multiset(a.table), j.front)
    && (a.rest.Some? ==> Midway(a.table, j.(exec := a.rest.value), dest))
    && (a.rest.None? ==> Pointed(multiset(a.table), j.front, dest) || Pointed(multiset(a.table), j.front, j.to))
  }

  lemma OwnSuccess(t: Table, j: Job, dest: Option<string>)
    requires IsExec(j.exec) && !j.exec.back && Midway(t, j, dest) && |j.exec.plan| == |PairOps(j.front, j.from, j.to)|
    requires RunOp(t, PairOps(j.front, j.from, j.to)[j.exec.at]).ok
    ensures var k, x := j.exec.at, j.exec;
            StandsAfter(Stepped(RunOp(t, PairOps(j.front, j.from, j.to)[k]).table,
                                if k + 1 == |x.plan| then None else Some(x.(at := k + 1))), j, dest)
  {
    var ops, k := PairOps(j.front, j.from, j.to), j.exec.at;
    var u := RunOp(t, ops[k]).table;
    Forward(t, j.front, dest, j.from, j.to, k);
    CountsLive(multiset(u), j.front, dest, j.from, j.to, k + 1);
  }

  lemma OwnFailure(t: Table, j: Job, dest: Option<string>)
    requires IsExec(j.exec) && !j.exec.back && Midway(t, j, dest)
    ensures StandsAfter(Stepped(t, if j.exec.at == 0 then None else Some(j.exec.(back := true))), j, dest)
  {
    CountsLive(multiset(t), j.front, dest, j.from, j.to, j.exec.at);
  }

  lemma OwnForward(t: Table, j: Job, dest: Option<string>, fault: Fault)
    requires IsJob(j) && Midway(t, j, dest) && !j.exec.back && fault != Uncaught
    ensures StandsAfter(StepExec(t, j.exec, fault), j, dest)
  {
    var ops := PairOps(j.front, j.from, j.to);
    JobMeans(j);
    ForwardMeans(t, j.exec, ops, fault);
    if fault == NoFault && RunOp(t, ops[j.exec.at]).ok {
      OwnSuccess(t, j, dest);
    } else {
      OwnFailure(t, j, dest);
    }
  }

  lemma OwnUndone(t: Table, j: Job, dest: Option<string>)
    requires IsExec(j.exec) && j.exec.back && Midway(t, j, dest) && |j.exec.plan| == |PairOps(j.front, j.from, j.to)|
    ensures var k, x := j.exec.at, j.exec;
            StandsAfter(Stepped(RunOp(t, PairOps(j.front, j.from, j.to)[k - 1].Inverse()).table,
                                if k == 1 then None else Some(x.(at := k - 1))), j, dest)
  {
    var ops, k := PairOps(j.front, j.from, j.to), j.exec.at;
    Backward(t, j.front, dest, j.from, j.to, k);
    CountsLive(multiset(RunOp(t, ops[k - 1].Inverse()).table), j.front, dest, j.from, j.to, k - 1);
  }

  lemma OwnBack(t: Table, j: Job, dest: Option<string>)
    requires IsJob(j) && Midway(t, j, dest) && j.exec.back
    ensures StandsAfter(StepExec(t, j.exec, NoFault), j, dest)
  {
    JobMeans(j);
    BackMeans(t, j.exec, PairOps(j.front, j.from, j.to));
    OwnUndone(t, j, dest);
  }

  /** One step of a request on its own front. */
  lemma OwnStep(t: Table, j: Job, dest: Option<string>, fault: Fault)
    requires IsJob(j) && Midway(t, j, dest) && Tolerated(j, fault)
    ensures StandsAfter(StepExec(t, j.exec, fault), j, dest)
  {
    if fault == Uncaught {
      CountsLive(multiset(t), j.front, dest, j.from, j.to, 0);
    } else if j.exec.back {
      OwnBack(t, j, dest);
    } else {
      OwnForward(t, j, dest, fault);
    }
  }

  lemma OpApart(j: Job, f: Front, ip: string, i: nat)
    requires Comment(j.front) != Comment(f) && i < |PairOps(j.front, j.from, j.to)|
    ensures var r := PairOps(j.front, j.from, j.to)[i].rule; r != DnatRule(f, ip) && r != MasqRule(f, ip)
  {
    OthersNotNamed(j.front, j.from, j.to, f, ip);
  }

  lemma ApartCounts(t: Table, op: Op, r: Rule)
    requires op.rule != r
    ensures multiset(RunOp(t, op).table)[r] == multiset(t)[r]
  {
    if RunOp(t, op).ok {
      OpCounts(t, op, r);
    }
  }

  /** One step of a request of another front. */
  lemma OtherStep(t: Table, j: Job, fault: Fault, f: Front, ip: string)
    requires IsJob(j) && Comment(j.front) != Comment(f)
    ensures var u := StepExec(t, j.exec, fault).table;
            && multiset(u)[DnatRule(f, ip)] == multiset(t)[DnatRule(f, ip)]
            && multiset(u)[MasqRule(f, ip)] == multiset(t)[MasqRule(f, ip)]
  {
    var ops := PairOps(j.front, j.from, j.to);
    JobMeans(j);
    StepMeans(t, j.exec, ops, fault);
    OpApart(j, f, ip, if j.exec.back then j.exec.at - 1 else j.exec.at);
    ApartCounts(t, NextOp(j.exec, ops), DnatRule(f, ip));
    ApartCounts(t, NextOp(j.exec, ops), MasqRule(f, ip));
  }

  /** The same rules of the front. */
  ghost predicate SameCounts(t: Table, u: Table, f: Front)
  {
    forall ip ::
      && multiset(u)[DnatRule(f, ip)] == multiset(t)[DnatRule(f, ip)]
      && multiset(u)[MasqRule(f, ip)] == multiset(t)[MasqRule(f, ip)]
  }

  /** The same requests of the front. */
  ghost predicate SameJobs(s: Sys, u: Sys, f: Front)
  {
    && (forall k :: k in s.jobs && s.jobs[k].front == f ==> k in u.jobs && u.jobs[k] == s.jobs[k])
    && (forall k :: k in u.jobs && u.jobs[k].front == f ==> k in s.jobs && s.jobs[k] == u.jobs[k])
  }

  lemma MidwayKept(t: Table, u: Table, j: Job, dest: Option<string>)
    requires SameCounts(t, u, j.front) && Midway(t, j, dest)
    ensures Midway(u, j, dest)
  {
  }

  lemma FrontKept(s: Sys, u: Sys, f: Front, dest: Option<string>)
    requires FrontAt(s, f, dest) && SameCounts(s.table, u.table, f) && SameJobs(s, u, f)
    ensures FrontAt(u, f, dest)
  {
    forall k | k in u.jobs && u.jobs[k].front == f
      ensures Midway(u.table, u.jobs[k], dest)
    {
      MidwayKept(s.table, u.table, s.jobs[k], dest);
    }
    if Idle(u, f) {
      assert Idle(s, f);
    }
  }

  lemma ContinuedKeepsJobs(s: Sys, id: nat, a: Stepped, f: Front)
    requires id in s.jobs && s.jobs[id].front != f
    ensures SameJobs(s, Continued(s, id, a), f)
  {
  }

  /** A step of another front's request. */
  lemma StepOther(s: Sys, id: nat, fault: Fault, f: Front, dest: Option<string>)
    requires FrontAt(s, f, dest) && id in s.jobs && IsJob(s.jobs[id]) && Comment(s.jobs[id].front) != Comment(f)
    ensures FrontAt(Continued(s, id, StepExec(s.table, s.jobs[id].exec, fault)), f, dest)
  {
    var a := StepExec(s.table, s.jobs[id].exec, fault);
    forall ip
      ensures multiset(a.table)[DnatRule(f, ip)] == multiset(s.table)[DnatRule(f, ip)]
      ensures multiset(a.table)[MasqRule(f, ip)] == multiset(s.table)[MasqRule(f, ip)]
    {
      OtherStep(s.table, s.jobs[id], fault, f, ip);
    }
    ContinuedKeepsJobs(s, id, a, f);
    FrontKept(s, Continued(s, id, a), f, dest);
  }

  lemma ContinuedFront(s: Sys, id: nat, a: Stepped, dest: Option<string>) returns (after: Option<string>)
    requires id in s.jobs && StandsAfter(a, s.jobs[id], dest) && IsDest(dest) && IsDest(s.jobs[id].to)
    requires forall k :: k in s.jobs && s.jobs[k].front == s.jobs[id].front ==> k == id
    ensures FrontAt(Continued(s, id, a), s.jobs[id].front, after)
  {
    var f, u := s.jobs[id].front, Continued(s, id, a);
    after := if a.rest.Some? || Pointed(multiset(a.table), f, dest) then dest else s.jobs[id].to;
    if a.rest.Some? {
      assert u.jobs[id].front == f;
    }
  }

  /** A step of the front's own request: it goes on, or it ends with the front where it was or where the
      request wanted it. */
  lemma StepOwn(s: Sys, id: nat, fault: Fault, fronts: set<Front>, dest: Option<string>) returns (after: Option<string>)
    requires JobsOk(s, fronts) && id in s.jobs && FrontAt(s, s.jobs[id].front, dest) && Tolerated(s.jobs[id], fault)
    ensures FrontAt(Continued(s, id, StepExec(s.table, s.jobs[id].exec, fault)), s.jobs[id].front, after)
  {
    var j := s.jobs[id];
    OwnStep(s.table, j, dest, fault);
    after := ContinuedFront(s, id, StepExec(s.table, j.exec, fault), dest);
  }

  lemma StepJobs(s: Sys, id: nat, fault: Fault, fronts: set<Front>)
    requires JobsOk(s, fronts) && id in s.jobs
    ensures JobsOk(Continued(s, id, StepExec(s.table, s.jobs[id].exec, fault)), fronts)
  {
    var a := StepExec(s.table, s.jobs[id].exec, fault);
    var u := Continued(s, id, a);
    forall k | k in u.jobs
      ensures k in s.jobs && u.jobs[k].front == s.jobs[k].front && IsJob(u.jobs[k])
    {
      assert IsJob(s.jobs[k]);
    }
  }

  /** What a request starts: nothing, or a run of its plan from the first command. */
  lemma BeginStarts(s: Sys, e: Event) returns (j: Option<Job>)
    requires e.Begin?
    ensures j.None? ==> Next(s, e) == s
    ensures j.Some? ==>
              && Next(s, e) == Started(s, e.id, j.value) && IsJob(j.value) && j.value.front == e.req.front
              && j.value.exec.at == 0 && j.value.from == FrontDestination(e.listing, e.req.front)
  {
    var plan, f := PlanOf(e.req, e.listing), e.req.front;
    PlanIsPair(e.req, e.listing);
    if plan.None? || plan.value == [] {
      j := None;
    } else {
      PairIsAddr(e.req, e.listing);
      PlanIsExec(f, FrontDestination(e.listing, f), Wanted(e.req));
      j := Some(Job(f, FrontDestination(e.listing, f), Wanted(e.req), Exec(plan.value, 0, false)));
    }
  }

  lemma StartedOther(s: Sys, id: nat, j: Job, f: Front, dest: Option<string>)
    requires FrontAt(s, f, dest) && id !in s.jobs && j.front != f
    ensures FrontAt(Started(s, id, j), f, dest)
  {
    FrontKept(s, Started(s, id, j), f, dest);
  }

  lemma StartedOwn(s: Sys, id: nat, j: Job, dest: Option<string>)
    requires FrontAt(s, j.front, dest) && Idle(s, j.front) && j.exec.at == 0 && (j.from.None? ==> dest.None?)
    ensures FrontAt(Started(s, id, j), j.front, dest)
  {
    var u := Started(s, id, j);
    assert Midway(s.table, j, dest);
    assert u.jobs[id].front == j.front;
  }

  lemma BeginFront(s: Sys, e: Event, fronts: set<Front>, f: Front, dest: Option<string>)
    requires Config(fronts) && f in fronts && FrontAt(s, f, dest)
    requires e.Begin? && Enabled(s, e) && Apart(s, e)
    ensures FrontAt(Next(s, e), f, dest)
  {
    var j := BeginStarts(s, e);
    if j.Some? {
      if f == e.req.front {
        assert Idle(s, f);
        if dest.Some? {
          PointedIsFound(e.listing, s.table, f, dest);
        }
        StartedOwn(s, e.id, j.value, dest);
      } else {
        StartedOther(s, e.id, j.value, f, dest);
      }
    }
  }

  lemma BeginJobs(s: Sys, e: Event, fronts: set<Front>)
    requires JobsOk(s, fronts) && e.Begin? && Apart(s, e) && e.req.front in fronts
    ensures JobsOk(Next(s, e), fronts)
  {
    var j := BeginStarts(s, e);
    if j.Some? {
      StartedJobs(s, e.id, j.value, fronts);
    }
  }

  lemma StartedJobs(s: Sys, id: nat, j: Job, fronts: set<Front>)
    requires JobsOk(s, fronts) && IsJob(j) && j.front in fronts
    requires forall k :: k in s.jobs ==> s.jobs[k].front != j.front
    ensures JobsOk(Started(s, id, j), fronts)
  {
    var u := Started(s, id, j);
    forall k | k in u.jobs
      ensures IsJob(u.jobs[k]) && u.jobs[k].front in fronts
    {
      assert k != id ==> u.jobs[k] == s.jobs[k];
    }
    forall k, l | k in u.jobs && l in u.jobs && u.jobs[k].front == u.jobs[l].front
      ensures k == l
    {
      assert (k != id ==> u.jobs[k] == s.jobs[k]) && (l != id ==> u.jobs[l] == s.jobs[l]);
    }
  }

  // ----- every interleaving -----

  ghost predicate Allowed(s: Sys, e: Event, fronts: set<Front>)
  {
    Enabled(s, e) && Apart(s, e) && (e.Begin? ==> e.req.front in fronts)
  }

  /** Any interleaving of the calls of any number of requests, those of one front one after the other. */
  ghost predicate Behaviour(ss: seq<Sys>, es: seq<Event>, fronts: set<Front>)
  {
    && |ss| == |es| + 1 && ss[0].jobs == map[] && AllPointed(ss[0].table, fronts)
    && forall i :: 0 <= i < |es| ==> Allowed(ss[i], es[i], fronts) && ss[i + 1] == Next(ss[i], es[i])
  }

  ghost predicate SysOk(s: Sys, fronts: set<Front>)
  {
    JobsOk(s, fronts) && forall f :: f in fronts ==> FrontIsAt(s, f)
  }

  ghost predicate FrontIsAt(s: Sys, f: Front) { exists dest :: FrontAt(s, f, dest) }

  lemma NextFront(s: Sys, e: Event, fronts: set<Front>, f: Front)
    requires Config(fronts) && SysOk(s, fronts) && Allowed(s, e, fronts) && f in fronts
    ensures FrontIsAt(Next(s, e), f)
  {
    assert FrontIsAt(s, f);
    var dest :| FrontAt(s, f, dest);
    if e.Begin? {
      BeginFront(s, e, fronts, f, dest);
    } else if s.jobs[e.id].front == f {
      var after := StepOwn(s, e.id, e.fault, fronts, dest);
    } else {
      StepOther(s, e.id, e.fault, f, dest);
    }
  }

  lemma NextOk(s: Sys, e: Event, fronts: set<Front>)
    requires Config(fronts) && SysOk(s, fronts) && Allowed(s, e, fronts)
    ensures SysOk(Next(s, e), fronts)
  {
    forall f | f in fronts
      ensures FrontIsAt(Next(s, e), f)
    {
      NextFront(s, e, fronts, f);
    }
    if e.Begin? {
      BeginJobs(s, e, fronts);
    } else {
      StepJobs(s, e.id, e.fault, fronts);
    }
  }

  lemma {:induction false} Reachable(ss: seq<Sys>, es: seq<Event>, fronts: set<Front>, n: nat)
    requires Config(fronts) && Behaviour(ss, es, fronts) && n < |ss|
    ensures SysOk(ss[n], fronts)
  {
    if n > 0 {
      Reachable(ss, es, fronts, n - 1);
      NextOk(ss[n - 1], es[n - 1], fronts);
    } else {
      StartOk(ss[0], fronts);
    }
  }

  lemma StartOk(s: Sys, fronts: set<Front>)
    requires s.jobs == map[] && AllPointed(s.table, fronts)
    ensures SysOk(s, fronts)
  {
    forall f | f in fronts
      ensures FrontIsAt(s, f)
    {
      var dest :| IsDest(dest) && Pointed(multiset(s.table), f, dest);
      assert FrontAt(s, f, dest);
    }
  }

  /** However the calls of requests of different fronts interleave, no table on the way has two live DNAT
      rules of a front, and a front without a request in flight has no rules or one pair. */
  lemma OverlapKeepsPairs(ss: seq<Sys>, es: seq<Event>, fronts: set<Front>, n: nat, f: Front)
    requires Config(fronts) && Behaviour(ss, es, fronts) && n < |ss| && f in fronts
    ensures OneLive(multiset(ss[n].table), f)
    ensures Idle(ss[n], f) ==> exists dest :: IsDest(dest) && Pointed(multiset(ss[n].table), f, dest)
  {
    Reachable(ss, es, fronts, n);
    assert FrontIsAt(ss[n], f);
    var dest :| FrontAt(ss[n], f, dest);
    if Idle(ss[n], f) {
      assert LiveAt(multiset(ss[n].table), f, dest);
    } else {
      var k :| k in ss[n].jobs && ss[n].jobs[k].front == f;
      var j := ss[n].jobs[k];
      CountsLive(multiset(ss[n].table), f, dest, j.from, j.to, j.exec.at);
    }
  }

  // ----- two requests of one front -----

  /** Both requests have read the listing. */
  function BothRead(t: Table, f: Front, a: string, b: string): Sys { Sys(t, map[0 := Fresh(f, a), 1 := Fresh(f, b)]) }

  lemma BothStart(t: Table, f: Front, a: string, b: string, ls: seq<Line>)
    requires FrontDestination(ls, f) == None && ParseIpv4(a) == Some(a) && ParseIpv4(b) == Some(b)
    ensures Next(Next(Sys(t, map[]), Begin(0, Switch(f, a), ls)), Begin(1, Switch(f, b), ls)) == BothRead(t, f, a, b)
  {
    FreshStarts(Sys(t, map[]), 0, f, a, ls);
    FreshStarts(Started(Sys(t, map[]), 0, Fresh(f, a)), 1, f, b, ls);
  }

  /** Requests of one front must not overlap: two switches of an uninstalled front that both read before
      either writes leave two live DNAT rules, after one undisturbed call each. */
  lemma OverlapBreaks(t: Table, f: Front, a: string, b: string, ls: seq<Line>)
    requires Pointed(multiset(t), f, None) && FrontDestination(ls, f) == None
    requires ParseIpv4(a) == Some(a) && ParseIpv4(b) == Some(b)
    ensures Next(Next(Sys(t, map[]), Begin(0, Switch(f, a), ls)), Begin(1, Switch(f, b), ls)) == BothRead(t, f, a, b)
    ensures IsJob(Fresh(f, a)) && IsJob(Fresh(f, b))
    ensures var u := Next(BothRead(t, f, a, b), Step(0, NoFault));
            && 1 in u.jobs && u.jobs[1] == Fresh(f, b)
            && !OneLive(multiset(Next(u, Step(1, NoFault)).table), f)
  {
    BothStart(t, f, a, b, ls);
    FreshStep(t, f, a);
    FreshStep(t + [DnatRule(f, a)], f, b);
    TwoLive(t, f, a, b);
    var u := Next(BothRead(t, f, a, b), Step(0, NoFault));
    assert u.table == t + [DnatRule(f, a)] && u.jobs[1] == Fresh(f, b);
    assert Next(u, Step(1, NoFault)).table == t + [DnatRule(f, a)] + [DnatRule(f, b)];
  }

  /** A switch of a front whose status reports nothing. */
  function Fresh(f: Front, ip: string): Job { Job(f, None, Some(ip), Exec(PairPlan(f, None, Some(ip)), 0, false)) }

  lemma FreshStarts(s: Sys, id: nat, f: Front, ip: string, ls: seq<Line>)
    requires FrontDestination(ls, f) == None && ParseIpv4(ip) == Some(ip)
    ensures Next(s, Begin(id, Switch(f, ip), ls)) == Started(s, id, Fresh(f, ip))
  {
    PlanIsPair(Switch(f, ip), ls);
  }

  lemma FreshStep(t: Table, f: Front, ip: string)
    requires IsDestination(ip)
    ensures IsJob(Fresh(f, ip))
    ensures StepExec(t, Fresh(f, ip).exec, NoFault) == Stepped(t + [DnatRule(f, ip)], Some(Fresh(f, ip).exec.(at := 1)))
  {
    DottedChars(ip, 3);
    PlanIsExec(f, None, Some(ip));
    PlanMeans(f, None, Some(ip));
    ForwardMeans(t, Fresh(f, ip).exec, PairOps(f, None, Some(ip)), NoFault);
  }

  lemma TwoLive(t: Table, f: Front, a: string, b: string)
    requires Pointed(multiset(t), f, None)
    ensures !OneLive(multiset(t + [DnatRule(f, a)] + [DnatRule(f, b)]), f)
  {
    var m := multiset(t + [DnatRule(f, a)] + [DnatRule(f, b)]);
    RulesApart(f, Some(a), b);
    assert multiset(t)[DnatRule(f, a)] == 0 && multiset(t)[DnatRule(f, b)] == 0;
    forall dest
      ensures !LiveAt(m, f, dest)
    {
      assert m[DnatRule(f, a)] != One(dest, a) || m[DnatRule(f, b)] != One(dest, b);
    }
  }
}
