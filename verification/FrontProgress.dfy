/** When requests of fronts go through, and what is left when an exception escapes. */
module FrontProgress {
  import opened Common
  import opened Ipv4
  import opened Detect
  import opened Spelling
  import opened NatTable
  import opened NatRuns
  import opened Fronts
  import opened FrontRules
  import opened FrontRuns

  // ----- progress -----

  /** From where the front points, every command of the plan finds its rule. */
  lemma {:induction false} PlanRuns(t: Table, f: Front, dest: Option<string>, to: Option<string>, k: nat)
    requires IsAddr(dest) && IsAddr(to)
    requires Pointed(multiset(t), f, dest) && k <= |PairPlan(f, dest, to)|
    ensures Runs(t, PairPlan(f, dest, to)[..k])
    decreases k
  {
    var p := PairPlan(f, dest, to);
    if k > 0 {
      PlanRuns(t, f, dest, to, k - 1);
      PlanMeans(f, dest, to);
      RunsStep(t, p, k - 1);
      var u, ops := After(t, p[..k - 1]), PairOps(f, dest, to);
      var op := ops[k - 1];
      if op.Delete? {
        CountAfter(t, p, ops, k - 1, op.rule);
        NetDnat(f, dest, to, k - 1, dest.value);
        NetMasq(f, dest, to, k - 1, dest.value);
        assert multiset(t)[op.rule] == 1;
      }
      RunChanges(u, op);
    }
  }

  /** If nothing is made to fail and the status is right, a request with a valid address goes through. */
  lemma UndisturbedApplies(t: Table, req: Request, env: Env, dest: Option<string>)
    requires Pointed(multiset(t), req.front, dest) && FrontDestination(env.listing, req.front) == dest
    requires NoFaultFrom(env.faults, 0) && (req.Switch? ==> Wanted(req).Some?)
    ensures Handle(t, req, env).reply == Answered(Applied)
    ensures Pointed(multiset(Handle(t, req, env).world.table), req.front, Wanted(req))
  {
    PlanIsPair(req, env.listing);
    PairIsAddr(req, env.listing);
    var p, w := PlanOf(req, env.listing).value, World(t, 0, []);
    assert p[..0] == [] && p[..|p|] == p;
    if p != [] {
      PlanRuns(t, req.front, dest, Wanted(req), |p|);
      PlanPasses(t, req.front, dest, dest, Wanted(req), |p|);
    }
    RunsMeansApplied(t, p, 0, w, env.faults);
    AppliedIsAfter(t, p, 0, w, env.faults);
  }

  /** When detection reports an address the front does not point to, the first deletion finds nothing
      and the table is left alone, whatever the environment does.  The reply is a failure, unless the
      reported address is the wanted one: then it is that of a switch that went through. */
  lemma MisreadChangesNothing(t: Table, req: Request, env: Env, dest: Option<string>)
    requires Pointed(multiset(t), req.front, dest)
    requires FrontDestination(env.listing, req.front).Some? && FrontDestination(env.listing, req.front) != dest
    ensures Handle(t, req, env).world.table == t
    ensures Handle(t, req, env).reply == Answered(Applied) <==>
            req.Switch? && FrontDestination(env.listing, req.front) == Wanted(req)
  {
    var found, plan := FrontDestination(env.listing, req.front), PlanOf(req, env.listing);
    PlanIsPair(req, env.listing);
    PairIsAddr(req, env.listing);
    if plan.Some? && plan.value != [] {
      FirstMisses(t, req.front, dest, found, Wanted(req));
      FirstFails(World(t, 0, []), plan.value, env.faults);
    }
  }

  lemma FirstMisses(t: Table, f: Front, dest: Option<string>, from: Option<string>, to: Option<string>)
    requires IsAddr(from) && IsAddr(to) && from.Some? && from != dest && Pointed(multiset(t), f, dest)
    ensures PairPlan(f, from, to) != [] && !RunNat(t, PairPlan(f, from, to)[0], NoFault).ok
  {
    PlanMeans(f, from, to);
    var r := DnatRule(f, from.value);
    assert PairOps(f, from, to)[0] == Delete(r);
    assert multiset(t)[r] == One(dest, from.value);
    assert r !in t;
  }

  lemma PointedOnce(m: multiset<Rule>, f: Front, a: Option<string>, b: Option<string>)
    requires Pointed(m, f, a) && Pointed(m, f, b)
    ensures a == b
  {
    if a.Some? {
      assert m[DnatRule(f, a.value)] == One(a, a.value) == One(b, a.value);
    } else if b.Some? {
      assert m[DnatRule(f, b.value)] == One(a, b.value) == One(b, b.value);
    }
  }

  /** The exact condition for progress: a request that nothing disturbs leaves its front where it wants
      it if and only if the status had been right or the front was there already. */
  lemma UndisturbedMovesIff(t: Table, req: Request, env: Env, dest: Option<string>)
    requires IsFront(req.front) && IsDest(dest) && Pointed(multiset(t), req.front, dest) && Lists(env.listing, t)
    requires NoFaultFrom(env.faults, 0) && (req.Switch? ==> Wanted(req).Some?)
    ensures Pointed(multiset(Handle(t, req, env).world.table), req.front, Wanted(req)) <==>
            FrontDestination(env.listing, req.front) == dest || dest == Wanted(req)
  {
    var found := FrontDestination(env.listing, req.front);
    if dest.Some? {
      PointedIsFound(env.listing, t, req.front, dest);
    }
    if found == dest {
      UndisturbedApplies(t, req, env, dest);
    } else {
      MisreadChangesNothing(t, req, env, dest);
      if Pointed(multiset(t), req.front, Wanted(req)) {
        PointedOnce(multiset(t), req.front, dest, Wanted(req));
      }
    }
  }

  /** Every rule that the detection of `f` reads from the table names `ip`. */
  ghost predicate ReadsOnly(t: Table, f: Front, ip: string)
  {
    forall r, ws :: r in t && IsSaved(ws, r) && FrontSite(ws, f) != -1 ==> AddressIn(ws, FrontSite(ws, f)) == ip
  }

  /** Prefix-freedom is needed for progress: as long as `f` has no rules and a longer label of its
      family that starts with the label of `f` is installed, no switch of `f` changes the table.  A
      switch to the address of the other label is answered as applied although nothing is installed. */
  lemma PrefixBlocks(t: Table, req: Request, env: Env, g: Front, ip: string)
    requires IsFront(req.front) && IsFront(g) && req.front.Awg2? == g.Awg2? && req.front.name <= g.name
    requires IsDestination(ip) && DnatRule(g, ip) in t && Pointed(multiset(t), req.front, None)
    requires Lists(env.listing, t)
    ensures Handle(t, req, env).world.table == t
    ensures ReadsOnly(t, req.front, ip) ==>
              (Handle(t, req, env).reply == Answered(Applied) <==> req.Switch? && Wanted(req) == Some(ip))
  {
    var ls := env.listing;
    var i := LineOf(ls, DnatRule(g, ip));
    PrefixClaims(req.front, g, ip, ls[i].words);
    FoundIfShown(ls, req.front, i);
    MisreadChangesNothing(t, req, env, None);
    var k := FoundInLine(ls, req.front);
    ShownBy(ls, k);
    assert IsSaved(ls[k].words, ReadLine(ls[k].words));
  }

  // ----- exceptions the executor does not catch -----

  /** How often the rules of the front are there after `k` commands of its own plan. */
  ghost predicate CountsAt(m: multiset<Rule>, f: Front, dest: Option<string>, to: Option<string>, k: nat)
  {
    var b := Base(dest);
    && (forall ip :: m[DnatRule(f, ip)] == if k == 0 then One(dest, ip) else if k > b then One(to, ip) else 0)
    && (forall ip ::
          m[MasqRule(f, ip)] == if k <= 1 && b > 0 then One(dest, ip) else if k > b + 1 then One(to, ip) else 0)
  }

  lemma PlanCounts(t: Table, f: Front, dest: Option<string>, to: Option<string>, k: nat)
    requires IsAddr(dest) && IsAddr(to) && Pointed(multiset(t), f, dest) && k <= |PairPlan(f, dest, to)|
    ensures CountsAt(multiset(After(t, PairPlan(f, dest, to)[..k])), f, dest, to, k)
  {
    var p, ops, m := PairPlan(f, dest, to), PairOps(f, dest, to), multiset(After(t, PairPlan(f, dest, to)[..k]));
    PlanMeans(f, dest, to);
    PlanRuns(t, f, dest, to, k);
    forall ip
      ensures m[DnatRule(f, ip)] == if k == 0 then One(dest, ip) else if k > Base(dest) then One(to, ip) else 0
      ensures m[MasqRule(f, ip)] ==
              if k <= 1 && Base(dest) > 0 then One(dest, ip) else if k > Base(dest) + 1 then One(to, ip) else 0
    {
      CountAfter(t, p, ops, k, DnatRule(f, ip));
      CountAfter(t, p, ops, k, MasqRule(f, ip));
      NetDnat(f, dest, to, k, ip);
      NetMasq(f, dest, to, k, ip);
    }
  }

  /** The front has no rules or one pair. */
  ghost predicate Whole(m: multiset<Rule>, f: Front) { exists dest :: Pointed(m, f, dest) }

  lemma WholeIffEven(m: multiset<Rule>, f: Front, dest: Option<string>, to: Option<string>, k: nat)
    requires CountsAt(m, f, dest, to, k) && k <= Base(dest) + Base(to)
    ensures Whole(m, f) <==> k % 2 == 0
  {
    if k % 2 == 0 {
      assert Pointed(m, f, if k == 0 then dest else if k > Base(dest) then to else None);
    } else {
      var ip := if k < Base(dest) then dest.value else to.value;
      assert m[DnatRule(f, ip)] != m[MasqRule(f, ip)];
    }
  }

  /** What a request that has a plan comes to. */
  lemma HandleIsApply(t: Table, req: Request, env: Env)
    requires PlanOf(req, env.listing).Some?
    ensures var d := Apply(World(t, 0, []), PlanOf(req, env.listing).value, 0, env.faults);
            Handle(t, req, env) == Handled(d.world, Answered(d.outcome))
  {
  }

  lemma PlanWholeIff(t: Table, f: Front, dest: Option<string>, to: Option<string>, fs: Faults)
    requires IsAddr(dest) && IsAddr(to) && Pointed(multiset(t), f, dest)
    requires CalmFrom(fs, Stopped(World(t, 0, []), PairPlan(f, dest, to), 0, fs).calls)
    ensures var w, p := World(t, 0, []), PairPlan(f, dest, to);
            Whole(multiset(Apply(w, p, 0, fs).world.table), f) <==> Left(w, p, 0, fs) % 2 == 0
  {
    var p, w := PairPlan(f, dest, to), World(t, 0, []);
    var n := Left(w, p, 0, fs);
    AllOrNothingIff(t, p, w, fs);
    PlanCounts(t, f, dest, to, n);
    WholeIffEven(multiset(After(t, p[..n])), f, dest, to, n);
  }

  lemma EmptyWhole(t: Table, f: Front, dest: Option<string>, fs: Faults)
    requires Pointed(multiset(t), f, dest)
    ensures Left(World(t, 0, []), [], 0, fs) == 0
    ensures Whole(multiset(Apply(World(t, 0, []), [], 0, fs).world.table), f)
  {
  }

  /** The plan of a request whose status is right. */
  lemma RightPlan(req: Request, env: Env, dest: Option<string>)
    requires FrontDestination(env.listing, req.front) == dest && (req.Switch? ==> Wanted(req).Some?)
    ensures IsAddr(dest) && IsAddr(Wanted(req)) && PlanOf(req, env.listing).Some?
    ensures PlanOf(req, env.listing).value in {[], PairPlan(req.front, dest, Wanted(req))}
  {
    PlanIsPair(req, env.listing);
    PairIsAddr(req, env.listing);
  }

  lemma ApplyWholeIff(t: Table, f: Front, dest: Option<string>, to: Option<string>, plan: seq<Argv>, fs: Faults)
    requires IsAddr(dest) && IsAddr(to) && Pointed(multiset(t), f, dest) && plan in {[], PairPlan(f, dest, to)}
    requires CalmFrom(fs, Stopped(World(t, 0, []), plan, 0, fs).calls)
    ensures Whole(multiset(Apply(World(t, 0, []), plan, 0, fs).world.table), f) <==>
            Left(World(t, 0, []), plan, 0, fs) % 2 == 0
  {
    if plan == [] {
      EmptyWhole(t, f, dest, fs);
    } else {
      PlanWholeIff(t, f, dest, to, fs);
    }
  }

  /** The exact condition for a request whose rollback meets nothing but uncaught exceptions, from a right
      status: its front is left with no rules or one pair if and only if an even number of the commands
      is in effect at the end. */
  lemma RequestWholeIff(t: Table, req: Request, env: Env, dest: Option<string>)
    requires Pointed(multiset(t), req.front, dest) && FrontDestination(env.listing, req.front) == dest
    requires req.Switch? ==> Wanted(req).Some?
    requires CalmFrom(env.faults, Stopped(World(t, 0, []), PlanOf(req, env.listing).value, 0, env.faults).calls)
    ensures Whole(multiset(Handle(t, req, env).world.table), req.front) <==>
            Left(World(t, 0, []), PlanOf(req, env.listing).value, 0, env.faults) % 2 == 0
  {
    RightPlan(req, env, dest);
    HandleIsApply(t, req, env);
    ApplyWholeIff(t, req.front, dest, Wanted(req), PlanOf(req, env.listing).value, env.faults);
  }

  lemma PlanSplits(t: Table, f: Front, ip: string, to: Option<string>, fs: Faults)
    requires IsAddr(Some(ip)) && IsAddr(to) && Pointed(multiset(t), f, Some(ip))
    requires forall j: nat :: fs(j) == if j == 1 then Uncaught else NoFault
    ensures var d := Apply(World(t, 0, []), PairPlan(f, Some(ip), to), 0, fs);
            && d.outcome == Escaped && !Whole(multiset(d.world.table), f)
            && multiset(d.world.table)[DnatRule(f, ip)] == 0 && multiset(d.world.table)[MasqRule(f, ip)] == 1
  {
    var p := PairPlan(f, Some(ip), to);
    PlanRuns(t, f, Some(ip), to, 1);
    PlanCounts(t, f, Some(ip), to, 1);
    WholeIffEven(multiset(After(t, p[..1])), f, Some(ip), to, 1);
    assert p[..0] == [];
    var at := ApplyStops(t, p, 1, 0, World(t, 0, []), fs);
  }

  /** The input that shows it: a switch of an installed front whose second call meets such an exception
      deletes the DNAT rule and leaves the MASQUERADE rule. */
  lemma UncaughtSplitsPair(t: Table, req: Request, env: Env, ip: string)
    requires req.Switch? && Wanted(req).Some? && Wanted(req) != Some(ip)
    requires Pointed(multiset(t), req.front, Some(ip)) && FrontDestination(env.listing, req.front) == Some(ip)
    requires forall j: nat :: env.faults(j) == if j == 1 then Uncaught else NoFault
    ensures var h := Handle(t, req, env);
            && h.reply == Answered(Escaped) && !Whole(multiset(h.world.table), req.front)
            && multiset(h.world.table)[DnatRule(req.front, ip)] == 0
            && multiset(h.world.table)[MasqRule(req.front, ip)] == 1
  {
    PlanIsPair(req, env.listing);
    PairIsAddr(req, env.listing);
    HandleIsApply(t, req, env);
    PlanSplits(t, req.front, ip, Wanted(req), env.faults);
  }
}
