/** The handlers of the proxy agent that change the nat table. */
module ProxyAgent {
  import opened Common
  import opened Ipv4
  import opened RulesText
  import opened Detect
  import opened NatTable
  import opened NatRuns
  import opened FrontRuns
  import opened DestinationPlan
  import opened DestinationRun
  import opened DestinationStatus

  /** A request at any point of the life of a host: the calls and tables before it stay in the history. */
  function Served(w: World, req: Request, listing: seq<Line>, fs: Faults): Handled
  {
    var h := Handle(w.table, req, Env(listing, Delayed(fs, w.calls)));
    Handled(Later(h.world, w.calls, w.seen), h.reply)
  }

  lemma LaterFresh(w: World)
    ensures Later(World(w.table, 0, []), w.calls, w.seen) == w
  {
    assert w.seen + [] == w.seen;
  }

  lemma ServedIs(w: World, req: Request, listing: seq<Line>, fs: Faults)
    ensures var plan := PlanOf(req, listing);
            Served(w, req, listing, fs) ==
            if plan.None? then Handled(w, Refused)
            else var d := Apply(w, plan.value, 0, fs); Handled(d.world, Answered(d.outcome))
  {
    var plan := PlanOf(req, listing);
    LaterFresh(w);
    if plan.Some? {
      LaterApply(World(w.table, 0, []), plan.value, 0, w.calls, w.seen, fs);
    }
  }

  /** `failover_set_destination`, `failover_teardown` and the AWG 3 handlers on a host. */
  method ServeFront(host: Host, req: Request, listing: seq<Line>) returns (reply: Reply)
    modifies host
    ensures Handled(host.world, reply) == Served(old(host.world), req, listing, host.faults)
  {
    ServedIs(host.world, req, listing, host.faults);
    var plan := PlanOf(req, listing);
    if plan.None? {
      return Refused;
    }
    if plan.value == [] {
      return Answered(Applied);
    }
    var out := host.ApplyIptablesPlan(plan.value);
    return Answered(out);
  }

  /** The answers of `proxy_destination`: 400 for a bad address, an undetected or unusable current
      address or an empty plan, the unchanged status, or the outcome of the plan. */
  datatype PutReply = BadAddress | NotFound | Unchanged | BadCurrent | NothingToDo | Tried(outcome: Outcome)

  /** What the caller may rely on when the plan went through: every command found its rule, and if the
      rules are as proxy.sh sets them up, every listing of the new table reports the new address. */
  ghost predicate Replaced(t: Text, prev: string, next: string, before: Table, after: Table)
  {
    && Runs(before, Plan(t, prev, next)) && after == After(before, Plan(t, prev, next))
    && (Quoteless(before) ==> PlanIsPlain(t, prev, next))
    && (PlanIsPlain(t, prev, next) ==>
          forall print_, ls ::
            StatusReady(t, before, prev, next, print_) && ListedBy(print_, ls, after) ==> Found(ls) == Some(next))
  }

  lemma PlanReplaces(t: Text, prev: string, next: string, w: World, fs: Faults)
    requires IsDestination(prev) && IsDestination(next) && SavedFrom(RuleLines(t.lines), w.table)
    requires Apply(w, Plan(t, prev, next), 0, fs).outcome == Applied
    ensures Replaced(t, prev, next, w.table, Apply(w, Plan(t, prev, next), 0, fs).world.table)
  {
    var p := Plan(t, prev, next);
    assert p[..0] == [];
    AppliedIsAfter(w.table, p, 0, w, fs);
    if Quoteless(w.table) {
      PlanFindsItsRules(t, w.table, prev, next);
    }
    if PlanIsPlain(t, prev, next) {
      forall print_, ls | StatusReady(t, w.table, prev, next, print_) && ListedBy(print_, ls, After(w.table, p))
        ensures Found(ls) == Some(next)
      {
        StatusAfterChange(t, w.table, prev, next, print_, ls);
      }
    }
  }

  /** When nothing is made to fail, the plans without quoted rules go through, and no others if no comment
      has a quote of its own. */
  lemma UndisturbedReplaces(t: Text, prev: string, next: string, w: World, fs: Faults)
    requires IsDestination(prev) && IsDestination(next) && SavedFrom(RuleLines(t.lines), w.table)
    requires NoFaultFrom(fs, w.calls)
    ensures PlanIsPlain(t, prev, next) ==> Apply(w, Plan(t, prev, next), 0, fs).outcome == Applied
    ensures Quoteless(w.table) ==>
              (Apply(w, Plan(t, prev, next), 0, fs).outcome == Applied <==> PlanIsPlain(t, prev, next))
  {
    var p := Plan(t, prev, next);
    assert p[..0] == [];
    PlanRuns(RuleLines(t.lines), w.table, prev, next);
    if Runs(w.table, p) {
      RunsMeansApplied(w.table, p, 0, w, fs);
    }
    if Apply(w, p, 0, fs).outcome == Applied {
      AppliedIsAfter(w.table, p, 0, w, fs);
    }
    if Quoteless(w.table) {
      PlanFindsItsRules(t, w.table, prev, next);
    }
  }

  /** Something is to be done: a rule has the old address as a destination, or rules that name it elsewhere
      are paired with as many rules that name the new one. */
  ghost predicate HasWork(t: Text, prev: string, next: string)
  {
    var rs := RuleLines(t.lines);
    SomeRewritten(rs, prev, next) || Taken(rs, prev, next) == Spoiled(rs, prev, next) > 0
  }

  /** Plan and apply, from the detected address on. */
  method ApplyRewrite(host: Host, t: Text, prev: string, next: string) returns (reply: PutReply)
    requires SavedFrom(RuleLines(t.lines), host.world.table)
    requires ParseIpv4(prev) == (if IsDestination(prev) then Some(prev) else None)
    requires ParseIpv4(next) == Some(next) && prev != next
    modifies host
    ensures reply == BadCurrent <==> !IsDestination(prev)
    ensures reply == NothingToDo <==> IsDestination(prev) && !HasWork(t, prev, next)
    ensures reply.Tried? <==> IsDestination(prev) && HasWork(t, prev, next)
    ensures !reply.Tried? ==> host.world == old(host.world)
    ensures reply.Tried? ==>
              Done(host.world, reply.outcome) == Apply(old(host.world), Plan(t, prev, next), 0, host.faults)
    ensures reply == Tried(Applied) ==> Replaced(t, prev, next, old(host.world.table), host.world.table)
    ensures reply == Tried(Failed(false, [])) ==> multiset(host.world.table) == multiset(old(host.world.table))
    ensures reply.Tried? && NoFaultFrom(host.faults, old(host.world.calls)) ==>
              && (PlanIsPlain(t, prev, next) ==> reply == Tried(Applied))
              && (Quoteless(old(host.world.table)) ==> (reply == Tried(Applied) <==> PlanIsPlain(t, prev, next)))
  {
    var plan := PlanDestinationRewrite(t, prev, next);
    if plan.None? {
      return BadCurrent;
    }
    PlanEmptyIff(t, prev, next);
    if plan.value == [] {
      return NothingToDo;
    }
    ghost var w := host.world;
    var out := host.ApplyIptablesPlan(plan.value);
    if out == Applied {
      PlanReplaces(t, prev, next, w, host.faults);
    } else if out == Failed(false, []) {
      assert plan.value[..0] == [];
      NoErrorsMeansRestored(w.table, plan.value, 0, w, host.faults);
    }
    if NoFaultFrom(host.faults, w.calls) {
      UndisturbedReplaces(t, prev, next, w, host.faults);
    }
    return Tried(out);
  }

  lemma {:induction false} RuleLineOf(ls: seq<Line>, i: nat) returns (k: nat)
    requires i < |ls| && IsRule(ls[i])
    ensures k < |RuleLines(ls)| && RuleLines(ls)[k].words == ls[i].words
  {
    if i == 0 {
      k := 0;
    } else {
      k := RuleLineOf(ls[1..], i - 1);
      if IsRule(ls[0]) {
        k := k + 1;
      }
    }
  }

  lemma SiteIsRewritten(l: Line, j: nat, prev: string, next: string)
    requires IsRule(l) && IsSite(l.words, j, prev) && IsDestination(prev) && IsDestination(next) && prev != next
    ensures RewriteLine(l, prev, next) != l
  {
    GuardNeverSuppresses(l, prev, next);
    RewriteAt(l.words, prev, next, j);
    SubstAddr(l.words[j], prev, next);
  }

  /** A DESTINATION that is read exactly can be changed. */
  lemma ExactHasWork(t: Text, next: string)
    requires Found(t.lines).Some? && IsDestination(Found(t.lines).value) && IsDestination(next)
    requires Found(t.lines) != Some(next) && ReadsExactly(t.lines)
    ensures HasWork(t, Found(t.lines).value, next)
  {
    var i, k := DnatLine(t.lines), SnatLine(t.lines);
    var at, j := if i != -1 then i else k, if i != -1 then RuleDnat(t.lines[i]) else RuleSnat(t.lines[k]);
    var m := RuleLineOf(t.lines, at);
    var l := RuleLines(t.lines)[m];
    SiteIsRewritten(l, j, Found(t.lines).value, next);
  }

  /** The new address is valid, and there is a current one, which is different. */
  predicate Differs(t: Text, newIp: string)
  {
    ParseIpv4(newIp).Some? && Found(t.lines).Some? && Found(t.lines) != ParseIpv4(newIp)
  }

  /** `proxy_destination`: the text was saved from the table of the host, comments bare or in quotes. */
  method PutDestination(host: Host, t: Text, newIp: string) returns (reply: PutReply)
    requires SavedFrom(RuleLines(t.lines), host.world.table)
    modifies host
    ensures reply == BadAddress <==> ParseIpv4(newIp).None?
    ensures reply == NotFound <==> ParseIpv4(newIp).Some? && Found(t.lines).None?
    ensures reply == Unchanged <==> ParseIpv4(newIp).Some? && Found(t.lines) == ParseIpv4(newIp)
    ensures reply == BadCurrent <==> Differs(t, newIp) && !IsDestination(Found(t.lines).value)
    ensures reply == NothingToDo <==>
              && Differs(t, newIp) && IsDestination(Found(t.lines).value)
              && !HasWork(t, Found(t.lines).value, ParseIpv4(newIp).value)
    ensures reply.Tried? <==>
              && Differs(t, newIp) && IsDestination(Found(t.lines).value)
              && HasWork(t, Found(t.lines).value, ParseIpv4(newIp).value)
    ensures Differs(t, newIp) && IsDestination(Found(t.lines).value) && ReadsExactly(t.lines) ==> reply.Tried?
    ensures !reply.Tried? ==> host.world == old(host.world)
    ensures reply.Tried? ==>
              var p := Plan(t, Found(t.lines).value, ParseIpv4(newIp).value);
              Done(host.world, reply.outcome) == Apply(old(host.world), p, 0, host.faults)
    ensures reply == Tried(Applied) ==>
              Replaced(t, Found(t.lines).value, ParseIpv4(newIp).value, old(host.world.table), host.world.table)
    ensures reply == Tried(Failed(false, [])) ==> multiset(host.world.table) == multiset(old(host.world.table))
    ensures reply.Tried? && NoFaultFrom(host.faults, old(host.world.calls)) ==>
              var plain := PlanIsPlain(t, Found(t.lines).value, ParseIpv4(newIp).value);
              && (plain ==> reply == Tried(Applied))
              && (Quoteless(old(host.world.table)) ==> (reply == Tried(Applied) <==> plain))
  {
    var next := ParseIpv4(newIp);
    if next.None? {
      return BadAddress;
    }
    var prev := DetectProxyDestination(t);
    if prev.None? {
      return NotFound;
    }
    if prev == next {
      return Unchanged;
    }
    FoundParses(t.lines);
    DestinationParses(next.value);
    if IsDestination(prev.value) && ReadsExactly(t.lines) {
      ExactHasWork(t, next.value);
    }
    reply := ApplyRewrite(host, t, prev.value, next.value);
  }

  lemma FoundParses(ls: seq<Line>)
    requires Found(ls).Some?
    ensures var ip := Found(ls).value; ParseIpv4(ip) == if IsDestination(ip) then Some(ip) else None
  {
    FoundIsTrimmed(ls);
    ParseTrimmed(Found(ls).value);
  }

  lemma DestinationParses(ip: string)
    requires IsDestination(ip)
    ensures ParseIpv4(ip) == Some(ip)
  {
    DottedChars(ip, 3);
    ParseTrimmed(ip);
  }
}
