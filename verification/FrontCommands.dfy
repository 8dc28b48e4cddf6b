/** The commands a request of a front runs, word by word. */
module FrontCommands {
  import opened Common
  import opened Words
  import opened Ipv4
  import opened RulesText
  import opened Detect
  import opened NatTable
  import opened Fronts
  import opened FrontRuns

  /** Digits that read as the number. */
  predicate PortText(s: string, n: nat)
  {
    s != [] && (forall i :: 0 <= i < |s| ==> IsDigit(s[i])) && Number(s) == n
  }

  /** `port` is where clients come in, `backend` where the member listens. */
  ghost predicate Ports(f: Front, port: string, backend: string)
  {
    match f
    case Awg2(_, p, b) => PortText(port, p) && PortText(backend, b)
    case Awg3(_) => port == "51900:51999" && backend == "51900-51999"
  }

  function CommentText(f: Front): string
  {
    match f
    case Awg2(name, _, _) => "az-failover:" + name
    case Awg3(name) => "az-failover-awg3:" + name
  }

  /** Packets on the front port go to the address and the backend port. */
  ghost predicate IsDnatCommand(a: Argv, action: string, f: Front, ip: string)
  {
    exists port, backend :: Ports(f, port, backend) && a == DnatWords(action, port, CommentText(f), ip + ":" + backend)
  }

  function DnatWords(action: string, port: string, comment: string, target: string): Argv
  {
    ["iptables", "-w", "-t", "nat", action, "PREROUTING", "-p", "udp", "--dport", port,
     "-m", "comment", "--comment", comment, "-j", "DNAT", "--to-destination", target]
  }

  /** Packets to the address on the backend port come back through the front. */
  ghost predicate IsMasqCommand(a: Argv, action: string, f: Front, ip: string)
  {
    exists port :: MasqPort(f, port) && a == MasqWords(action, port, CommentText(f), ip)
  }

  predicate MasqPort(f: Front, port: string)
  {
    match f
    case Awg2(_, _, b) => PortText(port, b)
    case Awg3(_) => port == "51900:51999"
  }

  function MasqWords(action: string, port: string, comment: string, ip: string): Argv
  {
    ["iptables", "-w", "-t", "nat", action, "POSTROUTING", "-p", "udp", "-d", ip, "--dport", port,
     "-m", "comment", "--comment", comment, "-j", "MASQUERADE"]
  }

  function Backend(f: Front): string { if f.Awg2? then Decimal(f.backendPort) else "51900-51999" }

  lemma TargetText(f: Front, ip: string)
    ensures Target(f, ip) == ip + ":" + Backend(f)
  {
    assert ":51900-51999" == ":" + "51900-51999";
    assert ip + (":" + Backend(f)) == ip + ":" + Backend(f);
  }

  lemma PortsText(f: Front)
    ensures Ports(f, FrontPort(f), Backend(f))
  {
    if f.Awg2? {
      NumberDecimal(f.port);
      NumberDecimal(f.backendPort);
    }
  }

  lemma DnatText(f: Front, action: string, ip: string)
    ensures Command(action, DnatRule(f, ip)) == DnatWords(action, FrontPort(f), CommentText(f), Target(f, ip))
  {
  }

  lemma DnatIsCommand(f: Front, action: string, ip: string)
    ensures IsDnatCommand(Command(action, DnatRule(f, ip)), action, f, ip)
  {
    TargetText(f, ip);
    PortsText(f);
    DnatText(f, action, ip);
  }

  lemma MasqIsCommand(f: Front, action: string, ip: string)
    ensures IsMasqCommand(Command(action, MasqRule(f, ip)), action, f, ip)
  {
    if f.Awg2? {
      NumberDecimal(f.backendPort);
    }
    assert MasqPort(f, BackendPort(f));
    assert Command(action, MasqRule(f, ip)) == MasqWords(action, BackendPort(f), CommentText(f), ip);
  }

  /** The commands of a request that has any: the pair for the reported address is deleted, then the pair
      for the wanted one is appended, each with the ports of the front. */
  lemma RequestCommands(req: Request, ls: seq<Line>, p: seq<Argv>)
    requires PlanOf(req, ls) == Some(p) && p != []
    ensures var f, found, to := req.front, FrontDestination(ls, req.front), Wanted(req);
            var n := if found.Some? then 2 else 0;
            && |p| == n + (if to.Some? then 2 else 0)
            && (found.Some? ==> IsDnatCommand(p[0], "-D", f, found.value) && IsMasqCommand(p[1], "-D", f, found.value))
            && (to.Some? ==> IsDnatCommand(p[n], "-A", f, to.value) && IsMasqCommand(p[n + 1], "-A", f, to.value))
  {
    var f, found, to := req.front, FrontDestination(ls, req.front), Wanted(req);
    PlanIsPair(req, ls);
    if found.Some? {
      DnatIsCommand(f, "-D", found.value);
      MasqIsCommand(f, "-D", found.value);
    }
    if to.Some? {
      DnatIsCommand(f, "-A", to.value);
      MasqIsCommand(f, "-A", to.value);
    }
  }

  /** A request has no command exactly when it has nothing to do: a switch to the reported address, or a
      teardown where nothing is reported. */
  lemma NoCommandsIff(req: Request, ls: seq<Line>)
    ensures PlanOf(req, ls) == Some([]) <==>
            (req.Switch? ==> Wanted(req).Some?) && FrontDestination(ls, req.front) == Wanted(req)
  {
    PlanIsPair(req, ls);
  }

  /** What a line must have for the status of a front to read it: the chain, the front's comment, and DNAT in
      some case. */
  lemma ReadNeeds(ws: seq<string>, f: Front)
    requires FrontSite(ws, f) != -1
    ensures LineContains(ws, "PREROUTING") && LineContains(ws, CommentText(f))
    ensures exists i :: 0 <= i < |ws| && Contains(Lower(ws[i]), "dnat")
  {
    assert Comment(f) == CommentText(f);
    var i :| 0 <= i < |ws| && SeeAll(ws)[i].mentions;
    SeenAt(ws, i);
  }

  lemma {:induction false} OnlyRange(ws: seq<string>, lo: nat, k: nat)
    requires lo <= k && k + 1 < |ws| && EndsWith(ws[k], TO_DESTINATION)
    requires forall j :: 0 <= j < |ws| && j != k ==> !EndsWith(ws[j], TO_DESTINATION)
    ensures RangeToFrom(ws, lo) == if RangeWord(ws[k + 1]) then k else -1
    decreases k - lo
  {
    if lo < k {
      OnlyRange(ws, lo + 1, k);
    } else {
      NoRange(ws, k + 1);
    }
  }

  lemma {:induction false} NoRange(ws: seq<string>, lo: nat)
    requires forall j :: lo <= j < |ws| ==> !EndsWith(ws[j], TO_DESTINATION)
    ensures RangeToFrom(ws, lo) == -1
    decreases |ws| - lo
  {
    if lo < |ws| {
      NoRange(ws, lo + 1);
    }
  }

  /** AWG 3 reads the target of such a rule exactly when the port range stands behind the address, whatever
      follows the range. */
  lemma RangeRead(l: Line, f: Front, k: nat, ip: string, behind: string)
    requires f.Awg3? && IsRule(l) && k + 1 < |l.words| && IsDotted(ip, 3) && (behind != [] ==> !IsDigit(behind[0]))
    requires LineContains(l.words, "PREROUTING") && LineContains(l.words, Comment(f)) && Mentions(SeeAll(l.words))
    requires EndsWith(l.words[k], TO_DESTINATION) && l.words[k + 1] == ip + behind
    requires forall j :: 0 <= j < |l.words| && j != k ==> !EndsWith(l.words[j], TO_DESTINATION)
    ensures FrontRead(l, f) == if ":51900-51999" <= behind then Some(ip) else None
  {
    var w := ip + behind;
    QuadOfAddress(w, ip);
    assert w[..|ip|] == ip && w[|ip|..] == behind;
    OnlyRange(l.words, 0, k);
  }
}
