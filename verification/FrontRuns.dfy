/** Whole runs of switches and teardowns of failover fronts. */
module FrontRuns {
  import opened Common
  import opened Words
  import opened Ipv4
  import opened RulesText
  import opened Detect
  import opened Spelling
  import opened NatTable
  import opened NatRuns
  import opened NatIsolation
  import opened Fronts
  import opened FrontRules

  // ----- how many rules of a front there are -----

  function One(dest: Option<string>, ip: string): nat { if dest == Some(ip) then 1 else 0 }

  /** The front has no rules at all, or exactly one DNAT and one MASQUERADE rule, naming `dest`. */
  ghost predicate Pointed(m: multiset<Rule>, f: Front, dest: Option<string>)
  {
    && (forall ip :: m[DnatRule(f, ip)] == One(dest, ip))
    && (forall ip :: m[MasqRule(f, ip)] == One(dest, ip))
  }

  /** At most one DNAT rule of the front is in the table. */
  ghost predicate OneLive(m: multiset<Rule>, f: Front)
  {
    exists dest :: LiveAt(m, f, dest)
  }

  ghost predicate LiveAt(m: multiset<Rule>, f: Front, dest: Option<string>)
  {
    forall ip :: m[DnatRule(f, ip)] == One(dest, ip)
  }

  lemma DnatInjective(f: Front, a: string, b: string)
    requires DnatRule(f, a) == DnatRule(f, b)
    ensures a == b
  {
    var x, y := Target(f, a), Target(f, b);
    assert DnatRule(f, a)[12] == x && DnatRule(f, b)[12] == y;
    assert |a| == |b|;
    assert a == x[..|a|] && b == y[..|b|];
  }

  lemma MasqInjective(f: Front, a: string, b: string)
    requires MasqRule(f, a) == MasqRule(f, b)
    ensures a == b
  {
    assert MasqRule(f, a)[4] == a && MasqRule(f, b)[4] == b;
  }

  lemma ChainsDiffer(f: Front, a: string, g: Front, b: string)
    ensures DnatRule(f, a) != MasqRule(g, b)
  {
    assert DnatRule(f, a)[0] == "PREROUTING" && MasqRule(g, b)[0] == "POSTROUTING";
    assert "PREROUTING"[1] != "POSTROUTING"[1];
  }

  lemma FrontsDiffer(f: Front, a: string, g: Front, b: string)
    requires Comment(f) != Comment(g)
    ensures DnatRule(f, a) != DnatRule(g, b) && MasqRule(f, a) != MasqRule(g, b)
  {
    assert DnatRule(f, a)[8] == Comment(f) && DnatRule(g, b)[8] == Comment(g);
    assert MasqRule(f, a)[10] == Comment(f) && MasqRule(g, b)[10] == Comment(g);
  }

  // ----- counting rules along a plan -----

  function Delta(op: Op, r: Rule): int
  {
    if op.rule != r then 0 else if op.Append? then 1 else -1
  }

  function Net(ops: seq<Op>, k: nat, r: Rule): int
    requires k <= |ops|
  {
    if k == 0 then 0 else Net(ops, k - 1, r) + Delta(ops[k - 1], r)
  }

  /** What iptables makes of the commands. */
  ghost predicate Means(plan: seq<Argv>, ops: seq<Op>)
  {
    |plan| == |ops| && forall i :: 0 <= i < |plan| ==> Parsed(plan[i]) == Some(ops[i])
  }

  lemma {:induction false} CountAfter(t: Table, plan: seq<Argv>, ops: seq<Op>, k: nat, r: Rule)
    requires Means(plan, ops) && k <= |plan| && Runs(t, plan[..k])
    ensures multiset(After(t, plan[..k]))[r] == multiset(t)[r] + Net(ops, k, r)
  {
    if k > 0 {
      RunsStep(t, plan, k - 1);
      CountAfter(t, plan, ops, k - 1, r);
      RunChanges(After(t, plan[..k - 1]), ops[k - 1]);
    }
  }

  // ----- the plans of a front -----

  function HalfPlan(f: Front, action: string, ip: Option<string>): seq<Argv>
  {
    if ip.None? then [] else [Command(action, DnatRule(f, ip.value)), Command(action, MasqRule(f, ip.value))]
  }

  function OpOf(action: string, r: Rule): Op { if action == APPEND then Append(r) else Delete(r) }

  function HalfOps(f: Front, action: string, ip: Option<string>): seq<Op>
  {
    if ip.None? then [] else [OpOf(action, DnatRule(f, ip.value)), OpOf(action, MasqRule(f, ip.value))]
  }

  /** Delete the pair for `from`, then append the pair for `to`. */
  function PairPlan(f: Front, from: Option<string>, to: Option<string>): seq<Argv>
  {
    HalfPlan(f, DELETE, from) + HalfPlan(f, APPEND, to)
  }

  function PairOps(f: Front, from: Option<string>, to: Option<string>): seq<Op>
  {
    HalfOps(f, DELETE, from) + HalfOps(f, APPEND, to)
  }

  /** Digits and dots only. */
  predicate IsAddr(x: Option<string>) { x.Some? ==> AllAddr(x.value) }

  function Base(from: Option<string>): nat { if from.None? then 0 else 2 }

  function Bit(b: bool): int { if b then 1 else 0 }

  lemma HalfMeans(f: Front, action: string, ip: Option<string>)
    requires IsAddr(ip) && IsAction(action)
    ensures Means(HalfPlan(f, action, ip), HalfOps(f, action, ip))
  {
    if ip.Some? {
      CommandParsed(action, DnatRule(f, ip.value));
      CommandParsed(action, MasqRule(f, ip.value));
      DnatMeant(f, ip.value);
      MasqMeant(f, ip.value);
    }
  }

  lemma MeansCat(p: seq<Argv>, x: seq<Op>, q: seq<Argv>, y: seq<Op>)
    requires Means(p, x) && Means(q, y)
    ensures Means(p + q, x + y)
  {
  }

  lemma PlanMeans(f: Front, from: Option<string>, to: Option<string>)
    requires IsAddr(from) && IsAddr(to)
    ensures Means(PairPlan(f, from, to), PairOps(f, from, to))
  {
    HalfMeans(f, DELETE, from);
    HalfMeans(f, APPEND, to);
    MeansCat(HalfPlan(f, DELETE, from), HalfOps(f, DELETE, from), HalfPlan(f, APPEND, to), HalfOps(f, APPEND, to));
  }

  lemma DeltaDnat(f: Front, from: Option<string>, to: Option<string>, k: nat, ip: string)
    requires k < |PairOps(f, from, to)|
    ensures Delta(PairOps(f, from, to)[k], DnatRule(f, ip)) ==
            Bit(to == Some(ip) && k == Base(from)) - Bit(from == Some(ip) && k == 0)
  {
    RulesApart(f, if k < Base(from) then from else to, ip);
  }

  lemma DeltaMasq(f: Front, from: Option<string>, to: Option<string>, k: nat, ip: string)
    requires k < |PairOps(f, from, to)|
    ensures Delta(PairOps(f, from, to)[k], MasqRule(f, ip)) ==
            Bit(to == Some(ip) && k == Base(from) + 1) - Bit(from == Some(ip) && k == 1)
  {
    RulesApart(f, if k < Base(from) then from else to, ip);
  }

  /** A rule that is counted up at one command and down at another. */
  lemma {:induction false} NetOf(ops: seq<Op>, k: nat, r: Rule, up: int, down: int)
    requires k <= |ops| && forall i :: 0 <= i < |ops| ==> Delta(ops[i], r) == Bit(i == up) - Bit(i == down)
    ensures Net(ops, k, r) == Bit(0 <= up < k) - Bit(0 <= down < k)
  {
    if k > 0 {
      NetOf(ops, k - 1, r, up, down);
    }
  }

  lemma NetDnat(f: Front, from: Option<string>, to: Option<string>, k: nat, ip: string)
    requires k <= |PairOps(f, from, to)|
    ensures Net(PairOps(f, from, to), k, DnatRule(f, ip)) ==
            Bit(to == Some(ip) && k > Base(from)) - Bit(from == Some(ip) && k > 0)
  {
    var ops := PairOps(f, from, to);
    var up, down := if to == Some(ip) then Base(from) else -1, if from == Some(ip) then 0 else -1;
    forall i | 0 <= i < |ops|
      ensures Delta(ops[i], DnatRule(f, ip)) == Bit(i == up) - Bit(i == down)
    {
      DeltaDnat(f, from, to, i, ip);
    }
    NetOf(ops, k, DnatRule(f, ip), up, down);
  }

  lemma NetMasq(f: Front, from: Option<string>, to: Option<string>, k: nat, ip: string)
    requires k <= |PairOps(f, from, to)|
    ensures Net(PairOps(f, from, to), k, MasqRule(f, ip)) ==
            Bit(to == Some(ip) && k > Base(from) + 1) - Bit(from == Some(ip) && k > 1)
  {
    var ops := PairOps(f, from, to);
    var up, down := if to == Some(ip) then Base(from) + 1 else -1, if from == Some(ip) then 1 else -1;
    forall i | 0 <= i < |ops|
      ensures Delta(ops[i], MasqRule(f, ip)) == Bit(i == up) - Bit(i == down)
    {
      DeltaMasq(f, from, to, i, ip);
    }
    NetOf(ops, k, MasqRule(f, ip), up, down);
  }

  lemma RulesApart(f: Front, x: Option<string>, ip: string)
    ensures x.Some? ==> (DnatRule(f, x.value) == DnatRule(f, ip) <==> x == Some(ip))
    ensures x.Some? ==> (MasqRule(f, x.value) == MasqRule(f, ip) <==> x == Some(ip))
    ensures x.Some? ==> DnatRule(f, x.value) != MasqRule(f, ip) && DnatRule(f, ip) != MasqRule(f, x.value)
  {
    if x.Some? {
      ChainsDiffer(f, x.value, f, ip);
      ChainsDiffer(f, ip, f, x.value);
      if DnatRule(f, x.value) == DnatRule(f, ip) { DnatInjective(f, x.value, ip); }
      if MasqRule(f, x.value) == MasqRule(f, ip) { MasqInjective(f, x.value, ip); }
    }
  }

  /** A rule that the plan does not name. */
  predicate NotNamed(f: Front, from: Option<string>, to: Option<string>, r: Rule)
  {
    && (from.Some? ==> r != DnatRule(f, from.value) && r != MasqRule(f, from.value))
    && (to.Some? ==> r != DnatRule(f, to.value) && r != MasqRule(f, to.value))
  }

  lemma {:induction false} NetNotNamed(f: Front, from: Option<string>, to: Option<string>, k: nat, r: Rule)
    requires k <= |PairOps(f, from, to)| && NotNamed(f, from, to, r)
    ensures Net(PairOps(f, from, to), k, r) == 0
    decreases k
  {
    if k > 0 {
      NetNotNamed(f, from, to, k - 1, r);
    }
  }

  /** A plan that starts by deleting runs only when the front points where detection said. */
  lemma FirstDeleteFinds(t: Table, f: Front, dest: Option<string>, from: Option<string>, to: Option<string>, k: nat)
    requires IsAddr(from) && IsAddr(to)
    requires Pointed(multiset(t), f, dest) && from.Some? && 0 < k <= |PairPlan(f, from, to)|
    requires Runs(t, PairPlan(f, from, to)[..k])
    ensures dest == from
  {
    var p := PairPlan(f, from, to);
    PlanMeans(f, from, to);
    RunsUpTo(t, p, k, 1);
    RunsStep(t, p, 0);
    assert p[..0] == [];
    assert DnatRule(f, from.value) in t;
    assert multiset(t)[DnatRule(f, from.value)] == One(dest, from.value);
  }

  /** What the rules of the front are at every point of its plan. */
  lemma PlanPasses(t: Table, f: Front, dest: Option<string>, from: Option<string>, to: Option<string>, k: nat)
    requires IsAddr(from) && IsAddr(to)
    requires Pointed(multiset(t), f, dest) && (from.None? ==> dest.None?)
    requires k <= |PairPlan(f, from, to)| && Runs(t, PairPlan(f, from, to)[..k])
    ensures OneLive(multiset(After(t, PairPlan(f, from, to)[..k])), f)
    ensures k == |PairPlan(f, from, to)| ==> Pointed(multiset(After(t, PairPlan(f, from, to)[..k])), f, to)
  {
    var p := PairPlan(f, from, to);
    var m, ops := multiset(After(t, p[..k])), PairOps(f, from, to);
    PlanMeans(f, from, to);
    if k > 0 && from.Some? {
      FirstDeleteFinds(t, f, dest, from, to, k);
    }
    var live := if k == 0 then dest else if k > Base(from) then to else None;
    forall ip
      ensures m[DnatRule(f, ip)] == One(live, ip)
      ensures k == |p| ==> m[DnatRule(f, ip)] == One(to, ip) && m[MasqRule(f, ip)] == One(to, ip)
    {
      CountAfter(t, p, ops, k, DnatRule(f, ip));
      CountAfter(t, p, ops, k, MasqRule(f, ip));
      NetDnat(f, from, to, k, ip);
      NetMasq(f, from, to, k, ip);
    }
    assert LiveAt(m, f, live);
  }

  // ----- requests -----

  datatype Request = Switch(front: Front, ip: string) | Teardown(front: Front)

  /** What the request meets: the saved rules it reads and the faults of its calls. */
  datatype Env = Env(listing: seq<Line>, faults: Faults)

  datatype Reply = Refused | Answered(outcome: Outcome)

  datatype Handled = Handled(world: World, reply: Reply)

  function PlanOf(req: Request, ls: seq<Line>): Option<seq<Argv>>
  {
    match req
    case Switch(f, ip) => SwitchPlan(ls, f, ip)
    case Teardown(f) => Some(TeardownPlan(ls, f))
  }

  /** `failover_set_destination`, `failover_teardown` and the AWG 3 handlers: read the rules, plan,
      apply.  A bad address is refused before anything is read. */
  function Handle(t: Table, req: Request, env: Env): Handled
  {
    var plan, w := PlanOf(req, env.listing), World(t, 0, []);
    if plan.None? then Handled(w, Refused)
    else
      var d := Apply(w, plan.value, 0, env.faults);
      Handled(d.world, Answered(d.outcome))
  }

  /** The rules that the rule lines show. */
  function ShownRules(ls: seq<Line>): seq<Rule>
  {
    if ls == [] then []
    else (if IsRule(ls[0]) then [ReadLine(ls[0].words)] else []) + ShownRules(ls[1..])
  }

  /** Every rule is shown by a line, and every rule line shows a rule; order and spelling are free. */
  ghost predicate Lists(ls: seq<Line>, t: Table)
  {
    forall r :: r in ShownRules(ls) <==> r in t
  }

  lemma {:induction false} LineOf(ls: seq<Line>, r: Rule) returns (i: nat)
    requires r in ShownRules(ls)
    ensures i < |ls| && IsRule(ls[i]) && IsSaved(ls[i].words, r)
  {
    if IsRule(ls[0]) && ReadLine(ls[0].words) == r {
      i := 0;
    } else {
      i := LineOf(ls[1..], r);
      i := i + 1;
    }
  }

  lemma {:induction false} ShownBy(ls: seq<Line>, i: nat)
    requires i < |ls| && IsRule(ls[i])
    ensures ReadLine(ls[i].words) in ShownRules(ls)
  {
    if i > 0 {
      ShownBy(ls[1..], i - 1);
    }
  }

  /** The rollback commands of this request are not made to fail, and no call after the first one meets
      an exception that the executor does not catch. */
  ghost predicate RollbackUndisturbed(t: Table, req: Request, env: Env)
  {
    var plan := PlanOf(req, env.listing);
    plan.Some? ==> Undisturbed(World(t, 0, []), plan.value, env.faults)
  }

  predicate IsDest(dest: Option<string>) { dest.Some? ==> IsDestination(dest.value) }

  /** Where an applied request leaves its front. */
  function Wanted(req: Request): Option<string>
  {
    if req.Switch? then ParseIpv4(req.ip) else None
  }

  lemma PairIsAddr(req: Request, ls: seq<Line>)
    ensures IsAddr(FrontDestination(ls, req.front)) && IsAddr(Wanted(req))
  {
    if FrontDestination(ls, req.front).Some? {
      ReportedChars(ls, req.front);
    }
    if Wanted(req).Some? {
      DottedChars(Wanted(req).value, 3);
    }
  }

  lemma PlanIsPair(req: Request, ls: seq<Line>)
    ensures var plan, found := PlanOf(req, ls), FrontDestination(ls, req.front);
            && (plan.None? <==> req.Switch? && Wanted(req).None?)
            && (plan.Some? ==> plan.value == PairPlan(req.front, found, Wanted(req)) ||
                               (plan.value == [] && req.Switch? && found == Wanted(req)))
  {
  }

  lemma FoundIfShown(ls: seq<Line>, f: Front, i: nat)
    requires i < |ls| && IsRule(ls[i]) && FrontSite(ls[i].words, f) != -1
    ensures FrontDestination(ls, f).Some?
  {
    FrontReadAt(ls, f, i);
    SomeIsFound(FrontReads(ls, f), i);
  }

  lemma FoundInLine(ls: seq<Line>, f: Front) returns (i: nat)
    requires FrontDestination(ls, f).Some?
    ensures i < |ls| && IsRule(ls[i]) && FrontSite(ls[i].words, f) != -1
    ensures FrontDestination(ls, f) == Some(AddressIn(ls[i].words, FrontSite(ls[i].words, f)))
  {
    i := FirstSomeAt(FrontReads(ls, f));
    FrontReadAt(ls, f, i);
  }

  /** A front that has rules is found. */
  lemma PointedIsFound(ls: seq<Line>, t: Table, f: Front, dest: Option<string>)
    requires IsFront(f) && Lists(ls, t) && Pointed(multiset(t), f, dest) && IsDest(dest) && dest.Some?
    ensures FrontDestination(ls, f).Some?
  {
    var r := DnatRule(f, dest.value);
    assert multiset(t)[r] == 1;
    assert r in t;
    var i := LineOf(ls, r);
    OwnDetected(f, dest.value, ls[i].words);
    FoundIfShown(ls, f, i);
  }

  // ----- one request -----

  lemma PassedAreLive(t: Table, f: Front, dest: Option<string>, from: Option<string>, to: Option<string>, x: Table)
    requires IsAddr(from) && IsAddr(to)
    requires Pointed(multiset(t), f, dest) && (from.None? ==> dest.None?)
    requires Passed(t, PairPlan(f, from, to), x)
    ensures OneLive(multiset(x), f)
  {
    var k :| 0 <= k <= |PairPlan(f, from, to)| && Runs(t, PairPlan(f, from, to)[..k]) &&
             multiset(x) == multiset(After(t, PairPlan(f, from, to)[..k]));
    PlanPasses(t, f, dest, from, to, k);
  }

  /** One request on its own front, whatever the other labels are: the front ends with no rules or
      one pair, either where it was or, if the plan went through, where the request wanted it; and
      no table on the way, rollback included, has two live DNAT rules for it. */
  lemma HandleKeepsFront(t: Table, req: Request, env: Env, dest: Option<string>)
    requires IsFront(req.front) && Pointed(multiset(t), req.front, dest) && IsDest(dest)
    requires Lists(env.listing, t) && RollbackUndisturbed(t, req, env)
    ensures var h := Handle(t, req, env);
            && Pointed(multiset(h.world.table), req.front,
                       if h.reply == Answered(Applied) && PlanOf(req, env.listing) != Some([])
                       then Wanted(req) else dest)
            && forall x :: x in h.world.seen ==> OneLive(multiset(x), req.front)
  {
    var f, ls := req.front, env.listing;
    var plan, found := PlanOf(req, ls), FrontDestination(ls, f);
    PlanIsPair(req, ls);
    PairIsAddr(req, ls);
    if plan.Some? && plan.value != [] {
      var p := plan.value;
      assert p[..0] == [] && p[..|p|] == p;
      if dest.Some? {
        PointedIsFound(ls, t, f, dest);
      }
      var w := World(t, 0, []);
      ApplyRestores(t, p, w, env.faults);
      var d := Apply(w, p, 0, env.faults);
      forall x | x in d.world.seen
        ensures OneLive(multiset(x), f)
      {
        PassedAreLive(t, f, dest, found, Wanted(req), x);
      }
      if d.outcome.Applied? {
        PlanPasses(t, f, dest, found, Wanted(req), |p|);
      }
    }
  }

  lemma PlanKeepsOthers(t: Table, f: Front, from: Option<string>, to: Option<string>,
      g: Front, dest: Option<string>, k: nat)
    requires IsAddr(from) && IsAddr(to)
    requires Comment(g) != Comment(f) && Pointed(multiset(t), g, dest)
    requires k <= |PairPlan(f, from, to)| && Runs(t, PairPlan(f, from, to)[..k])
    ensures Pointed(multiset(After(t, PairPlan(f, from, to)[..k])), g, dest)
  {
    var p := PairPlan(f, from, to);
    PlanMeans(f, from, to);
    forall ip
      ensures multiset(After(t, p[..k]))[DnatRule(g, ip)] == One(dest, ip)
      ensures multiset(After(t, p[..k]))[MasqRule(g, ip)] == One(dest, ip)
    {
      OthersNotNamed(f, from, to, g, ip);
      NetNotNamed(f, from, to, k, DnatRule(g, ip));
      NetNotNamed(f, from, to, k, MasqRule(g, ip));
      CountAfter(t, p, PairOps(f, from, to), k, DnatRule(g, ip));
      CountAfter(t, p, PairOps(f, from, to), k, MasqRule(g, ip));
    }
  }

  lemma OthersNotNamed(f: Front, from: Option<string>, to: Option<string>, g: Front, ip: string)
    requires Comment(g) != Comment(f)
    ensures NotNamed(f, from, to, DnatRule(g, ip)) && NotNamed(f, from, to, MasqRule(g, ip))
  {
    if from.Some? {
      FrontsDiffer(f, from.value, g, ip);
      ChainsDiffer(f, from.value, g, ip);
      ChainsDiffer(g, ip, f, from.value);
    }
    if to.Some? {
      FrontsDiffer(f, to.value, g, ip);
      ChainsDiffer(f, to.value, g, ip);
      ChainsDiffer(g, ip, f, to.value);
    }
  }

  /** One request leaves every front with another comment as it was. */
  lemma HandleKeepsOthers(t: Table, req: Request, env: Env, g: Front, dest: Option<string>)
    requires Comment(g) != Comment(req.front) && Pointed(multiset(t), g, dest)
    requires RollbackUndisturbed(t, req, env)
    ensures Pointed(multiset(Handle(t, req, env).world.table), g, dest)
  {
    var plan, found := PlanOf(req, env.listing), FrontDestination(env.listing, req.front);
    PlanIsPair(req, env.listing);
    PairIsAddr(req, env.listing);
    if plan.Some? {
      var p := plan.value;
      assert p[..0] == [] && p[..|p|] == p;
      ApplyRestores(t, p, World(t, 0, []), env.faults);
      if p != [] && Runs(t, p) {
        PlanKeepsOthers(t, req.front, found, Wanted(req), g, dest, |p|);
      }
    }
  }

  /** The rules that do not carry exactly the comment of the front. */
  function Foreign(f: Front): Rule -> bool { (r: Rule) => Comment(f) !in r }

  lemma OpsCarryComment(f: Front, from: Option<string>, to: Option<string>, i: nat)
    requires i < |PairOps(f, from, to)|
    ensures !Foreign(f)(PairOps(f, from, to)[i].rule)
  {
    var ip := if i < Base(from) then from.value else to.value;
    assert DnatRule(f, ip)[8] == Comment(f) && MasqRule(f, ip)[10] == Comment(f);
  }

  lemma PlanSparesForeign(f: Front, from: Option<string>, to: Option<string>, i: nat)
    requires IsAddr(from) && IsAddr(to)
    requires i < |PairPlan(f, from, to)|
    ensures Spares(PairPlan(f, from, to)[i], Foreign(f))
  {
    PlanMeans(f, from, to);
    OpsCarryComment(f, from, to, i);
  }

  /** In every outcome, rollback failures included, all tables on the way show the rules that do not
      carry exactly the front's own comment in the same order. */
  lemma HandleSparesForeign(t: Table, req: Request, env: Env)
    ensures KeepsOrder(World(t, 0, []), Handle(t, req, env).world, Foreign(req.front))
  {
    var plan, found := PlanOf(req, env.listing), FrontDestination(env.listing, req.front);
    PlanIsPair(req, env.listing);
    PairIsAddr(req, env.listing);
    if plan.Some? {
      forall i | 0 <= i < |plan.value|
        ensures Spares(plan.value[i], Foreign(req.front))
      {
        PlanSparesForeign(req.front, found, Wanted(req), i);
      }
      ApplySpares(World(t, 0, []), plan.value, 0, env.faults, Foreign(req.front));
    }
  }

  // ----- whole runs -----

  /** Pairwise different labels within a family, so the ports of a label are fixed. */
  ghost predicate Config(fronts: set<Front>)
  {
    && (forall f :: f in fronts ==> IsFront(f))
    && (forall f, g :: f in fronts && g in fronts && f != g ==> Comment(f) != Comment(g))
  }

  /** One request of a run: it reads a listing of the table it finds and no rollback is disturbed; plan
      steps may fail anywhere. */
  ghost predicate Serves(t: Table, req: Request, env: Env, u: Table)
  {
    && Lists(env.listing, t)
    && RollbackUndisturbed(t, req, env)
    && u == Handle(t, req, env).world.table
  }

  ghost predicate IsRun(ts: seq<Table>, reqs: seq<Request>, envs: seq<Env>, fronts: set<Front>)
  {
    && |ts| == |reqs| + 1 == |envs| + 1
    && forall i :: 0 <= i < |reqs| ==> reqs[i].front in fronts && Serves(ts[i], reqs[i], envs[i], ts[i + 1])
  }

  /** No rules or one pair, for a valid address. */
  ghost predicate Stands(t: Table, f: Front) { exists dest :: IsDest(dest) && Pointed(multiset(t), f, dest) }

  ghost predicate AllPointed(t: Table, fronts: set<Front>)
  {
    forall f :: f in fronts ==> Stands(t, f)
  }

  lemma RequestKeeps(t: Table, req: Request, env: Env, u: Table, g: Front)
    requires IsFront(req.front) && Serves(t, req, env, u) && Stands(t, g)
    requires g != req.front ==> Comment(g) != Comment(req.front)
    ensures Stands(u, g)
  {
    var dest :| IsDest(dest) && Pointed(multiset(t), g, dest);
    if g == req.front {
      HandleKeepsFront(t, req, env, dest);
    } else {
      HandleKeepsOthers(t, req, env, g, dest);
    }
  }

  lemma RequestKeepsAll(t: Table, req: Request, env: Env, u: Table, fronts: set<Front>)
    requires Config(fronts) && req.front in fronts && Serves(t, req, env, u) && AllPointed(t, fronts)
    ensures AllPointed(u, fronts)
  {
    forall g | g in fronts
      ensures Stands(u, g)
    {
      RequestKeeps(t, req, env, u, g);
    }
  }

  lemma RunStep(ts: seq<Table>, reqs: seq<Request>, envs: seq<Env>, fronts: set<Front>, i: nat)
    requires Config(fronts) && IsRun(ts, reqs, envs, fronts) && i < |reqs| && AllPointed(ts[i], fronts)
    ensures AllPointed(ts[i + 1], fronts)
  {
    RequestKeepsAll(ts[i], reqs[i], envs[i], ts[i + 1], fronts);
  }

  /** After any sequence of switches and teardowns, with plan steps failing anywhere, every front has
      no rules or exactly one DNAT and one MASQUERADE rule naming the same address. */
  lemma RunKeepsPairs(ts: seq<Table>, reqs: seq<Request>, envs: seq<Env>, fronts: set<Front>, n: nat)
    requires Config(fronts) && IsRun(ts, reqs, envs, fronts) && AllPointed(ts[0], fronts) && n < |ts|
    ensures AllPointed(ts[n], fronts)
  {
    var p := (t: Table) => AllPointed(t, fronts);
    forall i | 0 <= i < n && p(ts[i])
      ensures p(ts[i + 1])
    {
      RunStep(ts, reqs, envs, fronts, i);
    }
    Along(ts, p, n);
  }

  /** And no table in between, rollback steps included, has two live DNAT rules for the front being
      switched. */
  lemma RunNeverTwoLive(ts: seq<Table>, reqs: seq<Request>, envs: seq<Env>, fronts: set<Front>, n: nat, x: Table)
    requires Config(fronts) && IsRun(ts, reqs, envs, fronts) && AllPointed(ts[0], fronts) && n < |reqs|
    requires x in Handle(ts[n], reqs[n], envs[n]).world.seen
    ensures OneLive(multiset(x), reqs[n].front)
  {
    RunKeepsPairs(ts, reqs, envs, fronts, n);
    assert Serves(ts[n], reqs[n], envs[n], ts[n + 1]);
    RequestNeverTwoLive(ts[n], reqs[n], envs[n], ts[n + 1], x);
  }

  lemma RequestNeverTwoLive(t: Table, req: Request, env: Env, u: Table, x: Table)
    requires IsFront(req.front) && Serves(t, req, env, u) && Stands(t, req.front)
    requires x in Handle(t, req, env).world.seen
    ensures OneLive(multiset(x), req.front)
  {
    var dest :| IsDest(dest) && Pointed(multiset(t), req.front, dest);
    HandleKeepsFront(t, req, env, dest);
  }

  // ----- runs of fronts that do not answer for each other -----

  /** Every rule that the detection of `f` would read, spelled in any way, is a DNAT rule of `f`. */
  ghost predicate Unclaimed(t: Table, f: Front)
  {
    forall r, ws :: r in t && IsSaved(ws, r) && FrontSite(ws, f) != -1 ==>
                      exists ip :: IsDotted(ip, 3) && r == DnatRule(f, ip)
  }

  lemma LineIsOwn(ws: seq<string>, t: Table, f: Front, dest: Option<string>)
    requires IsFront(f) && Pointed(multiset(t), f, dest) && Unclaimed(t, f)
    requires ReadLine(ws) in t && IsSaved(ws, ReadLine(ws)) && FrontSite(ws, f) != -1
    ensures dest == Some(AddressIn(ws, FrontSite(ws, f)))
  {
    var r := ReadLine(ws);
    var ip :| IsDotted(ip, 3) && r == DnatRule(f, ip);
    OwnDetected(f, ip, ws);
    assert multiset(t)[r] == One(dest, ip);
  }

  /** Then detection reports exactly where the front points. */
  lemma DetectIsExact(ls: seq<Line>, t: Table, f: Front, dest: Option<string>)
    requires IsFront(f) && Lists(ls, t) && Pointed(multiset(t), f, dest) && IsDest(dest) && Unclaimed(t, f)
    ensures FrontDestination(ls, f) == dest
  {
    if FrontDestination(ls, f).Some? {
      var i := FoundInLine(ls, f);
      ShownBy(ls, i);
      LineIsOwn(ls[i].words, t, f, dest);
    } else if dest.Some? {
      PointedIsFound(ls, t, f, dest);
    }
  }

  /** Within a family no label is a prefix of another. */
  ghost predicate PrefixFree(fronts: set<Front>)
  {
    && Config(fronts)
    && forall f, g :: f in fronts && g in fronts && f != g && f.Awg2? == g.Awg2? ==> !(f.name <= g.name)
  }

  lemma OthersUnread(f: Front, g: Front, ip: string, ws: seq<string>)
    requires IsFront(f) && IsFront(g) && IsDotted(ip, 3) && IsSaved(ws, DnatRule(g, ip))
    requires f.Awg2? == g.Awg2? ==> !(f.name <= g.name)
    ensures FrontSite(ws, f) == -1
  {
    if f.Awg2? == g.Awg2? {
      PrefixClaims(f, g, ip, ws);
    } else {
      FamiliesApart(f, g, ip, ws);
    }
  }

  /** The rules of the table after a request were there before or are the appended pair. */
  lemma NewRules(t: Table, req: Request, env: Env, r: Rule)
    requires RollbackUndisturbed(t, req, env)
    requires r in Handle(t, req, env).world.table && r !in t
    ensures Wanted(req).Some?
    ensures r == DnatRule(req.front, Wanted(req).value) || r == MasqRule(req.front, Wanted(req).value)
  {
    var plan, found := PlanOf(req, env.listing), FrontDestination(env.listing, req.front);
    PlanIsPair(req, env.listing);
    PairIsAddr(req, env.listing);
    var p := plan.value;
    assert p[..0] == [] && p[..|p|] == p;
    ApplyRestores(t, p, World(t, 0, []), env.faults);
    var u := Handle(t, req, env).world.table;
    assert multiset(u)[r] > 0 && multiset(t)[r] == 0;
    PlanMeans(req.front, found, Wanted(req));
    CountAfter(t, p, PairOps(req.front, found, Wanted(req)), |p|, r);
    if NotNamed(req.front, found, Wanted(req), r) {
      NetNotNamed(req.front, found, Wanted(req), |p|, r);
    }
    NetOnlyAppended(req.front, found, Wanted(req), |p|, r);
  }

  lemma {:induction false} NetOnlyAppended(f: Front, from: Option<string>, to: Option<string>, k: nat, r: Rule)
    requires k <= |PairOps(f, from, to)|
    ensures Net(PairOps(f, from, to), k, r) > 0 ==>
              to.Some? && (r == DnatRule(f, to.value) || r == MasqRule(f, to.value))
    decreases k
  {
    if k > 0 {
      NetOnlyAppended(f, from, to, k - 1, r);
    }
  }

  lemma RequestKeepsUnclaimed(t: Table, req: Request, env: Env, fronts: set<Front>, f: Front)
    requires PrefixFree(fronts) && req.front in fronts && f in fronts && Unclaimed(t, f)
    requires RollbackUndisturbed(t, req, env)
    ensures Unclaimed(Handle(t, req, env).world.table, f)
  {
    var u, g := Handle(t, req, env).world.table, req.front;
    forall r, ws | r in u && IsSaved(ws, r) && FrontSite(ws, f) != -1
      ensures exists ip :: IsDotted(ip, 3) && r == DnatRule(f, ip)
    {
      if r !in t {
        NewRules(t, req, env, r);
        var ip := Wanted(req).value;
        DottedChars(ip, 3);
        if r == MasqRule(g, ip) {
          MasqLineIgnored(f, g, ip, ws);
        } else if f != g {
          OthersUnread(f, g, ip, ws);
        }
      }
    }
  }

  type Dests = map<Front, Option<string>>

  /** The table agrees with `d`: every front points exactly there, and nothing else answers for it. */
  ghost predicate Agrees(t: Table, d: Dests)
  {
    forall f :: f in d ==> IsDest(d[f]) && Pointed(multiset(t), f, d[f]) && Unclaimed(t, f)
  }

  /** The abstract effect of a request: an applied one moves its own front, all others change nothing. */
  function Moved(d: Dests, req: Request, reply: Reply): Dests
  {
    if reply == Answered(Applied) then d[req.front := Wanted(req)] else d
  }

  /** The request does on the table what `Moved` says. */
  lemma RequestRefines(t: Table, req: Request, env: Env, d: Dests)
    requires PrefixFree(d.Keys) && req.front in d && Agrees(t, d)
    requires Lists(env.listing, t) && RollbackUndisturbed(t, req, env)
    ensures Agrees(Handle(t, req, env).world.table, Moved(d, req, Handle(t, req, env).reply))
  {
    var h := Handle(t, req, env);
    var e := Moved(d, req, h.reply);
    forall g | g in e
      ensures IsDest(e[g]) && Pointed(multiset(h.world.table), g, e[g]) && Unclaimed(h.world.table, g)
    {
      RequestKeepsUnclaimed(t, req, env, d.Keys, g);
      if g == req.front {
        OwnFrontMoves(t, req, env, d[g]);
      } else {
        HandleKeepsOthers(t, req, env, g, d[g]);
      }
    }
  }

  lemma OwnFrontMoves(t: Table, req: Request, env: Env, dest: Option<string>)
    requires IsFront(req.front) && IsDest(dest) && Pointed(multiset(t), req.front, dest) && Unclaimed(t, req.front)
    requires Lists(env.listing, t) && RollbackUndisturbed(t, req, env)
    ensures var h := Handle(t, req, env);
            Pointed(multiset(h.world.table), req.front, if h.reply == Answered(Applied) then Wanted(req) else dest)
  {
    DetectIsExact(env.listing, t, req.front, dest);
    HandleKeepsFront(t, req, env, dest);
    PlanIsPair(req, env.listing);
    PairIsAddr(req, env.listing);
  }

  /** The abstract run beside a run: each request moves its front as its reply says. */
  ghost predicate Tracks(ds: seq<Dests>, ts: seq<Table>, reqs: seq<Request>, envs: seq<Env>)
    requires |reqs| < |ts| && |reqs| <= |envs|
  {
    && |ds| == |reqs| + 1
    && forall i :: 0 <= i < |reqs| ==> ds[i + 1] == Moved(ds[i], reqs[i], Handle(ts[i], reqs[i], envs[i]).reply)
  }

  /** The table agrees with `d`, which is about the fronts of the run. */
  ghost predicate Tracked(t: Table, d: Dests, fronts: set<Front>) { d.Keys == fronts && Agrees(t, d) }

  lemma TrackedStep(t: Table, req: Request, env: Env, u: Table, d: Dests, e: Dests)
    requires PrefixFree(d.Keys) && req.front in d && Agrees(t, d) && Serves(t, req, env, u)
    requires e == Moved(d, req, Handle(t, req, env).reply)
    ensures Tracked(u, e, d.Keys)
  {
    RequestRefines(t, req, env, d);
  }

  lemma RunTracksStep(ts: seq<Table>, reqs: seq<Request>, envs: seq<Env>, ds: seq<Dests>, fronts: set<Front>, i: nat)
    requires PrefixFree(fronts) && IsRun(ts, reqs, envs, fronts) && Tracks(ds, ts, reqs, envs)
    requires i < |reqs| && Tracked(ts[i], ds[i], fronts)
    ensures Tracked(ts[i + 1], ds[i + 1], fronts)
  {
    TrackedStep(ts[i], reqs[i], envs[i], ts[i + 1], ds[i], ds[i + 1]);
  }

  lemma RunTracks(ts: seq<Table>, reqs: seq<Request>, envs: seq<Env>, ds: seq<Dests>, fronts: set<Front>, n: nat)
    requires PrefixFree(fronts) && IsRun(ts, reqs, envs, fronts) && Tracks(ds, ts, reqs, envs)
    requires Tracked(ts[0], ds[0], fronts) && n < |ts|
    ensures Tracked(ts[n], ds[n], fronts)
  {
    var p := (t: Table, d: Dests) => Tracked(t, d, fronts);
    forall i | 0 <= i < n && p(ts[i], ds[i])
      ensures p(ts[i + 1], ds[i + 1])
    {
      RunTracksStep(ts, reqs, envs, ds, fronts, i);
    }
    AlongBoth(ts, ds, p, n);
  }

  /** A run of prefix-free fronts refines the abstract one: at every point each front's rules name the
      address of its last applied switch, none after an applied teardown, and the status read from any
      listing of the table reports exactly that. */
  lemma RunRefines(ts: seq<Table>, reqs: seq<Request>, envs: seq<Env>, ds: seq<Dests>, n: nat, f: Front, ls: seq<Line>)
    requires |ds| > 0 && |reqs| < |ts| && |reqs| <= |envs|
    requires PrefixFree(ds[0].Keys) && IsRun(ts, reqs, envs, ds[0].Keys) && Tracks(ds, ts, reqs, envs)
    requires Agrees(ts[0], ds[0]) && n < |ts| && f in ds[0] && Lists(ls, ts[n])
    ensures f in ds[n] && Pointed(multiset(ts[n]), f, ds[n][f]) && FrontDestination(ls, f) == ds[n][f]
  {
    RunTracks(ts, reqs, envs, ds, ds[0].Keys, n);
    DetectIsExact(ls, ts[n], f, ds[n][f]);
  }
}
