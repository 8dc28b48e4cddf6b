/** The rules proxy.sh sets up, word by word: what is detected in them and what a change makes of them. */
module ProxyRules {
  import opened Words
  import opened Ipv4
  import opened RulesText
  import opened Detect
  import opened DetectLimits

  /** `-A PREROUTING -p <proto> -m <proto> --dport <port> -j DNAT --to-destination <target>`. */
  function DnatWords(proto: string, port: string, target: string): seq<string>
  {
    ["-A", "PREROUTING", "-p", proto, "-m", proto, "--dport", port, "-j", "DNAT", "--to-destination", target]
  }

  /** `-A POSTROUTING -d <address>/32 -j SNAT --to-source <source>`. */
  function SnatWords(address: string, source: string): seq<string>
  {
    ["-A", "POSTROUTING", "-d", address + "/32", "-j", "SNAT", "--to-source", source]
  }

  predicate IsProto(proto: string) { proto == "tcp" || proto == "udp" }

  predicate IsNumber(s: string) { s != [] && forall i :: 0 <= i < |s| ==> IsDigit(s[i]) }

  // ----- what the patterns see in the words -----

  lemma NumberSeenAt(ws: seq<string>, i: nat)
    requires i < |ws| && IsNumber(ws[i])
    ensures SeeAll(ws)[i].digits && !SeeAll(ws)[i].jump && Numbers(ws)[i] == Number(ws[i])
  {
    SeenAt(ws, i);
    var w := ws[i];
    DigitRunIs(w, |w|);
    assert w[..|w|] == w;
    NoDash(w);
  }

  lemma NoDash(w: string)
    requires IsNumber(w)
    ensures !EndsWith(Lower(w), "-j")
  {
    if EndsWith(Lower(w), "-j") {
      LastChar(Lower(w), "-j");
    }
  }

  lemma DportSeenAt(ws: seq<string>, i: nat)
    requires i < |ws| && ws[i] == "--dport"
    ensures SeeAll(ws)[i].port && SeeAll(ws)[i].exactPort && !SeeAll(ws)[i].jump
  {
    SeenAt(ws, i);
    DportSeen(ws[i]);
  }

  lemma DportSeen(w: string)
    requires w == "--dport"
    ensures See(w).port && See(w).exactPort && !See(w).jump
  {
    assert Lower(w) == w;
    PortSeen(w);
    assert w[0..] == w;
  }

  lemma ProtoSeenAt(ws: seq<string>, i: nat)
    requires i < |ws| && IsProto(ws[i])
    ensures !SeeAll(ws)[i].port && !SeeAll(ws)[i].exactPort && !SeeAll(ws)[i].jump
  {
    SeenAt(ws, i);
    LiteralSeen(ws[i]);
  }

  lemma WordSeenAt(ws: seq<string>, i: nat)
    requires i < |ws| && ws[i] in {"-A", "PREROUTING", "-p", "-m"}
    ensures !SeeAll(ws)[i].port && !SeeAll(ws)[i].exactPort && !SeeAll(ws)[i].jump
  {
    SeenAt(ws, i);
    LiteralSeen(ws[i]);
  }

  /** Up to the port there is no other port flag and no jump. */
  predicate FrontHalf(v: seq<Seen>, n: seq<nat>, p: nat)
  {
    && |v| == |n| == 12
    && (forall i :: 0 <= i < 6 ==> !v[i].port && !v[i].exactPort && !v[i].jump)
    && v[6].port && v[6].exactPort && v[7].digits && n[7] == p && !v[6].jump && !v[7].jump
  }

  lemma ChainWords(proto: string, port: string, target: string, i: nat)
    requires IsProto(proto) && i < 6
    ensures var v := SeeAll(DnatWords(proto, port, target)); !v[i].port && !v[i].exactPort && !v[i].jump
  {
    if i == 3 || i == 5 {
      ProtoSeenAt(DnatWords(proto, port, target), i);
    } else {
      WordSeenAt(DnatWords(proto, port, target), i);
    }
  }

  lemma DnatFront(proto: string, port: string, target: string)
    requires IsProto(proto) && IsNumber(port)
    ensures var ws := DnatWords(proto, port, target); FrontHalf(SeeAll(ws), Numbers(ws), Number(port))
  {
    var ws := DnatWords(proto, port, target);
    forall i | 0 <= i < 6
      ensures !SeeAll(ws)[i].port && !SeeAll(ws)[i].exactPort && !SeeAll(ws)[i].jump
    {
      ChainWords(proto, port, target, i);
    }
    DportSeenAt(ws, 6);
    NumberSeenAt(ws, 7);
  }

  predicate BackHalf(v: seq<Seen>)
  {
    |v| == 12 && v[8].jump && v[9].dnat && v[9].mentions && v[10].to && v[11].quad
  }

  lemma HoldsDnatAt(ws: seq<string>, k: nat)
    requires k < |ws| && ws[k] == "DNAT"
    ensures SeeAll(ws)[k].mentions
  {
    SeenAt(ws, k);
    DnatMentioned();
  }

  lemma DnatBack(proto: string, port: string, target: string)
    requires QuadLen(target) > 0
    ensures BackHalf(SeeAll(DnatWords(proto, port, target)))
  {
    var ws := DnatWords(proto, port, target);
    JumpAt(ws, 8);
    DnatAt(ws, 9);
    HoldsDnatAt(ws, 9);
    ToAt(ws, 10);
    QuadAt(ws, 11);
  }

  lemma {:induction false} PortFromIs(v: seq<Seen>, ignoreCase: bool, lo: nat, i: nat)
    requires lo <= i && PortAt(v, i, ignoreCase) && forall j :: lo <= j < i ==> !PortAt(v, j, ignoreCase)
    ensures PortFrom(v, ignoreCase, lo) == i
    decreases i - lo
  {
    if lo < i {
      PortFromIs(v, ignoreCase, lo + 1, i);
    }
  }

  lemma {:induction false} TargetFromIs(v: seq<Seen>, lo: nat, k: nat)
    requires lo <= k && DnatToAt(v, k) && forall j :: lo <= j < k ==> !DnatToAt(v, j)
    ensures DnatToFrom(v, lo) == k
    decreases k - lo
  {
    if lo < k {
      TargetFromIs(v, lo + 1, k);
    }
  }

  lemma HalvesDecide(v: seq<Seen>, n: seq<nat>, p: nat)
    requires FrontHalf(v, n, p) && BackHalf(v)
    ensures DnatSite(v, n) == if IsAzPort(p) then 11 else -1
    ensures PortFrom(v, false, 0) == 6 && Mentions(v)
  {
    PortFromIs(v, true, 0, 6);
    PortFromIs(v, false, 0, 6);
    TargetFromIs(v, 7, 8);
    TargetFromIs(v, 0, 8);
    assert v[9].mentions;
  }

  /** The listen ports of proxy.sh. */
  ghost const PORTS: set<nat> := {80, 443, 504, 508, 540, 580, 50080, 50443, 51080, 51443, 52080, 52443}

  /** A rule line with these words. */
  predicate HasWords(l: Line, ws: seq<string>) { IsRule(l) && l.words == ws }

  /** The DNAT rule is read, and counts as installed, exactly on the twelve listen ports; the address is the
      one in front of the port of its target. */
  lemma DnatDetectedIff(l: Line, proto: string, port: string, ip: string, behind: string)
    requires IsProto(proto) && IsNumber(port) && IsDotted(ip, 3) && (behind != [] ==> !IsDigit(behind[0]))
    requires HasWords(l, DnatWords(proto, port, ip + behind))
    ensures RuleDnat(l) != -1 <==> Number(port) in PORTS
    ensures RuleDnat(l) != -1 ==> DnatAddress(l) == ip && IsSite(l.words, RuleDnat(l), ip)
    ensures Number(port) in PORTS ==> RuleInstalled(l)
  {
    var target := ip + behind;
    TargetStarts(ip, behind);
    DnatFront(proto, port, target);
    DnatBack(proto, port, target);
    HalvesDecide(SeeAll(l.words), Numbers(l.words), Number(port));
    KnownPorts(Number(port));
    ToIsKey();
  }

  /** The same rule with the target in front of the port, which the first pattern does not match. */
  function TargetFirstWords(proto: string, port: string, target: string): seq<string>
  {
    ["-A", "PREROUTING", "-p", proto, "-j", "DNAT", "--to-destination", target, "--dport", port]
  }

  predicate PortLast(v: seq<Seen>, n: seq<nat>, p: nat)
  {
    && |v| == |n| == 10
    && (forall i :: 0 <= i < 8 ==> !v[i].port && !v[i].exactPort)
    && (forall i :: 0 <= i < 4 ==> !v[i].jump) && !v[8].jump && !v[9].jump
    && v[4].jump && v[5].dnat && v[5].mentions && v[6].to && v[7].quad
    && v[8].port && v[8].exactPort && v[9].digits && n[9] == p
  }

  lemma LastDecides(v: seq<Seen>, n: seq<nat>, p: nat)
    requires PortLast(v, n, p)
    ensures DnatSite(v, n) == if IsAzPort(p) then 7 else -1
  {
    PortFromIs(v, true, 0, 8);
    PortFromIs(v, false, 0, 8);
    TargetFromIs(v, 0, 4);
    assert DnatToFrom(v, 9) == -1;
    assert v[5].mentions;
  }

  lemma NoPortAt(ws: seq<string>, i: nat)
    requires i < |ws| && ws[i] != [] && LowerChar(ws[i][|ws[i]| - 1]) != 't'
    ensures !SeeAll(ws)[i].port && !SeeAll(ws)[i].exactPort
    ensures LowerChar(ws[i][|ws[i]| - 1]) != 'j' ==> !SeeAll(ws)[i].jump
  {
    SeenAt(ws, i);
    NoPort(ws[i]);
  }

  lemma NoPort(w: string)
    requires w != [] && LowerChar(w[|w| - 1]) != 't'
    ensures !See(w).port && !See(w).exactPort && (LowerChar(w[|w| - 1]) != 'j' ==> !See(w).jump)
  {
    var low := Lower(w);
    assert low[|low| - 1] == LowerChar(w[|w| - 1]);
    if EndsWith(low, "--dport") { LastChar(low, "--dport"); }
    if EndsWith(w, "--dport") { LastChar(w, "--dport"); }
    if EndsWith(low, "-j") { LastChar(low, "-j"); }
  }

  lemma DnatNoPort(ws: seq<string>, i: nat)
    requires i < |ws| && ws[i] == "DNAT"
    ensures !SeeAll(ws)[i].port && !SeeAll(ws)[i].exactPort
  {
    SeenAt(ws, i);
    DnatWordNoPort();
  }

  lemma DnatWordNoPort()
    ensures !See("DNAT").port && !See("DNAT").exactPort
  {
    assert |Lower("DNAT")| == 4;
  }

  lemma TargetNoPort(ws: seq<string>, i: nat, ip: string, behind: string)
    requires i < |ws| && ws[i] == ip + behind && IsDotted(ip, 3) && behind != [] && IsDigit(behind[|behind| - 1])
    ensures !SeeAll(ws)[i].port && !SeeAll(ws)[i].exactPort
  {
    SeenAt(ws, i);
    DigitEndNoPort(ws[i]);
  }

  lemma DigitEndNoPort(w: string)
    requires w != [] && IsDigit(w[|w| - 1])
    ensures !See(w).port && !See(w).exactPort
  {
    var low := Lower(w);
    assert low[|low| - 1] == w[|w| - 1];
    if EndsWith(low, "--dport") { LastChar(low, "--dport"); }
    if EndsWith(w, "--dport") { LastChar(w, "--dport"); }
  }

  lemma TargetFirstSeen(proto: string, port: string, ip: string, behind: string)
    requires IsProto(proto) && IsNumber(port) && IsDotted(ip, 3)
    requires behind != [] && !IsDigit(behind[0]) && IsDigit(behind[|behind| - 1])
    ensures var ws := TargetFirstWords(proto, port, ip + behind); PortLast(SeeAll(ws), Numbers(ws), Number(port))
  {
    var ws := TargetFirstWords(proto, port, ip + behind);
    TargetStarts(ip, behind);
    TargetFirstChain(ws, proto);
    TargetFirstJump(ws, ip, behind);
    DportSeenAt(ws, 8);
    NumberSeenAt(ws, 9);
  }

  predicate IsSilent(s: Seen) { !s.port && !s.exactPort && !s.jump }

  lemma NoPortIn(ws: seq<string>, i: nat, w: string, k: nat)
    requires i < |ws| && ws[i] == w && |w| == k + 1 && LowerChar(w[k]) != 't' && LowerChar(w[k]) != 'j'
    ensures IsSilent(SeeAll(ws)[i])
  {
    NoPortAt(ws, i);
  }

  lemma TargetFirstChain(ws: seq<string>, proto: string)
    requires |ws| == 10 && ws[0] == "-A" && ws[1] == "PREROUTING" && ws[2] == "-p" && ws[3] == proto && IsProto(proto)
    ensures forall i :: 0 <= i < 4 ==> IsSilent(SeeAll(ws)[i])
  {
    forall i | 0 <= i < 4
      ensures IsSilent(SeeAll(ws)[i])
    {
      var w := ws[i];
      NoPortIn(ws, i, w, |w| - 1);
    }
  }

  lemma TargetFirstJump(ws: seq<string>, ip: string, behind: string)
    requires |ws| == 10 && ws[4] == "-j" && ws[5] == "DNAT" && ws[6] == "--to-destination" && ws[7] == ip + behind
    requires IsDotted(ip, 3) && behind != [] && IsDigit(behind[|behind| - 1]) && QuadLen(ip + behind) > 0
    ensures var v := SeeAll(ws);
            && (forall i :: 4 <= i < 8 ==> !v[i].port && !v[i].exactPort)
            && v[4].jump && v[5].dnat && v[5].mentions && v[6].to && v[7].quad
  {
    NoPortAt(ws, 4);
    JumpAt(ws, 4);
    DnatNoPort(ws, 5);
    DnatAt(ws, 5);
    HoldsDnatAt(ws, 5);
    NoPortAt(ws, 6);
    ToAt(ws, 6);
    TargetNoPort(ws, 7, ip, behind);
    QuadAt(ws, 7);
  }

  /** Detection reads such a rule by its second search, on the same ports. */
  lemma TargetFirstDetectedIff(l: Line, proto: string, port: string, ip: string, behind: string)
    requires IsProto(proto) && IsNumber(port) && IsDotted(ip, 3)
    requires behind != [] && !IsDigit(behind[0]) && IsDigit(behind[|behind| - 1])
    requires HasWords(l, TargetFirstWords(proto, port, ip + behind))
    ensures RuleDnat(l) != -1 <==> Number(port) in PORTS
    ensures RuleDnat(l) != -1 ==> DnatAddress(l) == ip
  {
    TargetStarts(ip, behind);
    TargetFirstSeen(proto, port, ip, behind);
    LastDecides(SeeAll(l.words), Numbers(l.words), Number(port));
    KnownPorts(Number(port));
  }

  lemma TargetStarts(ip: string, behind: string)
    requires IsDotted(ip, 3) && (behind != [] ==> !IsDigit(behind[0]))
    ensures AddrAt(ip + behind, ip) && QuadLen(ip + behind) == |ip| && (ip + behind)[..|ip|] == ip
  {
    assert AddrAt(ip + behind, ip);
    QuadOfAddress(ip + behind, ip);
  }

  lemma KnownPorts(n: nat)
    ensures IsAzPort(n) <==> n in PORTS
  {
  }

  lemma ToIsKey()
    ensures IsDestKey("--to-destination")
  {
    assert "--to-destination"[0..] == "--to-destination";
  }

  lemma SnatFlagAt(ws: seq<string>, i: nat)
    requires i < |ws| && ws[i] == "-d"
    ensures SeeAll(ws)[i].flag
  {
    SeenAt(ws, i);
    assert Lower("-d") == "-d" && "-d"[0..] == "-d";
  }

  lemma NetWord(w: string, ip: string)
    requires w == ip + "/32" && IsDotted(ip, 3)
    ensures IsNetWord(w) && QuadLen(w) == |ip| && w[..|ip|] == ip
  {
    TargetStarts(ip, "/32");
    assert w[|ip| + 1..] == "32";
    DigitRunIs("32", 2);
  }

  lemma NetIsSeen(w: string)
    requires IsNetWord(w)
    ensures See(w).net && See(w).quad
  {
  }

  lemma SnatNetAt(ws: seq<string>, i: nat, ip: string)
    requires i < |ws| && ws[i] == ip + "/32" && IsDotted(ip, 3)
    ensures SeeAll(ws)[i].net && SeeAll(ws)[i].quad && QuadLen(ws[i]) == |ip| && ws[i][..|ip|] == ip
  {
    SeenAt(ws, i);
    NetWord(ws[i], ip);
    NetIsSeen(ws[i]);
  }

  lemma NoFlagAt(ws: seq<string>, i: nat)
    requires i < |ws| && ws[i] in {"-A", "POSTROUTING"}
    ensures !SeeAll(ws)[i].flag
  {
    SeenAt(ws, i);
    LiteralSeen(ws[i]);
  }

  /** The SNAT rule is read by its destination and counts as installed. */
  lemma SnatDetected(l: Line, ip: string, source: string)
    requires IsDotted(ip, 3) && HasWords(l, SnatWords(ip, source))
    ensures RuleSnat(l) == 3 && SnatAddress(l) == ip && IsSite(l.words, 3, ip) && RuleInstalled(l)
  {
    var ws, v := l.words, SeeAll(l.words);
    NoFlagAt(ws, 0);
    NoFlagAt(ws, 1);
    SnatFlagAt(ws, 2);
    SnatNetAt(ws, 3, ip);
    JumpAt(ws, 4);
    SnatWordAt(ws, 5);
    SnatFound(v);
    assert "-d"[0..] == "-d";
    assert AddrAt(ws[3], ip);
  }

  lemma SnatFound(v: seq<Seen>)
    requires |v| == 8 && !v[0].flag && !v[1].flag && v[2].flag && v[3].net && v[3].quad && v[4].jump && v[5].snat
    ensures SnatSite(v) == 3
  {
    assert SnatJumpFrom(v, 4);
    assert SnatAt(v, 2);
    assert SnatFrom(v, 2) == 2;
    assert SnatFrom(v, 1) == 2;
  }

  // ----- a change -----

  lemma SameWords(a: seq<string>, b: seq<string>)
    requires |a| == |b| && forall i :: 0 <= i < |a| ==> a[i] == b[i]
    ensures a == b
  {
  }

  lemma PlainWordNoSite(ws: seq<string>, i: nat, ip: string)
    requires i < |ws| && IsDotted(ip, 3) && (ws[i] == [] || !IsDigit(ws[i][0]))
    ensures !IsSite(ws, i, ip)
  {
    DottedChars(ip, 3);
  }

  lemma DnatWordStays(proto: string, port: string, prev: string, behind: string, next: string, i: nat)
    requires IsProto(proto) && IsDotted(prev, 3) && IsDotted(next, 3) && i < 11
    ensures var ws := DnatWords(proto, port, prev + behind); RewriteWords(ws, prev, next)[i] == ws[i]
  {
    var ws := DnatWords(proto, port, prev + behind);
    RewriteAt(ws, prev, next, i);
    if i == 7 {
      DportIsNoKey();
      assert ws[6] == "--dport";
    } else {
      DnatWordPlain(proto, port, prev + behind, i);
      PlainWordNoSite(ws, i, prev);
    }
  }

  lemma DnatWordPlain(proto: string, port: string, target: string, i: nat)
    requires IsProto(proto) && i < 11 && i != 7
    ensures var w := DnatWords(proto, port, target)[i]; w == [] || !IsDigit(w[0])
  {
  }

  lemma AddressReplaced(ws: seq<string>, i: nat, prev: string, behind: string, next: string)
    requires IsDotted(prev, 3) && IsDotted(next, 3) && 0 < i < |ws| && IsDestKey(ws[i - 1])
    requires ws[i] == prev + behind && (behind != [] ==> !IsDigit(behind[0]))
    ensures RewriteWords(ws, prev, next)[i] == next + behind
  {
    RewriteAt(ws, prev, next, i);
    assert AddrAt(ws[i], prev) && ws[i][|prev|..] == behind;
    assert IsSite(ws, i, prev);
  }

  /** A change of the DESTINATION replaces exactly the address of the target. */
  lemma DnatRewritten(proto: string, port: string, prev: string, behind: string, next: string)
    requires IsProto(proto) && IsDotted(prev, 3) && IsDotted(next, 3) && (behind != [] ==> !IsDigit(behind[0]))
    ensures RewriteWords(DnatWords(proto, port, prev + behind), prev, next) == DnatWords(proto, port, next + behind)
  {
    var ws, vs := DnatWords(proto, port, prev + behind), DnatWords(proto, port, next + behind);
    forall i | 0 <= i < 12
      ensures RewriteWords(ws, prev, next)[i] == vs[i]
    {
      if i == 11 {
        ToIsKey();
        AddressReplaced(ws, 11, prev, behind, next);
      } else {
        DnatWordStays(proto, port, prev, behind, next, i);
      }
    }
    SameWords(RewriteWords(ws, prev, next), vs);
  }

  lemma DportIsNoKey()
    ensures !IsDestKey("--dport")
  {
    if EndsWith("--dport", TO_DESTINATION) { LastChar("--dport", TO_DESTINATION); }
    if EndsWith("--dport", DEST_FLAG) { LastChar("--dport", DEST_FLAG); }
  }

  lemma SourceIsNoKey()
    ensures !IsDestKey("--to-source")
  {
    if EndsWith("--to-source", TO_DESTINATION) { LastChar("--to-source", TO_DESTINATION); }
    if EndsWith("--to-source", DEST_FLAG) { LastChar("--to-source", DEST_FLAG); }
  }

  lemma FlagIsKey()
    ensures IsDestKey("-d")
  {
    assert "-d"[0..] == "-d";
  }

  lemma SnatWordStays(prev: string, source: string, next: string, i: nat)
    requires IsDotted(prev, 3) && IsDotted(next, 3) && i < 8 && i != 3
    ensures var ws := SnatWords(prev, source); RewriteWords(ws, prev, next)[i] == ws[i]
  {
    var ws := SnatWords(prev, source);
    RewriteAt(ws, prev, next, i);
    if i == 7 {
      SourceIsNoKey();
      assert ws[6] == "--to-source";
    } else {
      SnatWordPlain(prev, source, i);
      PlainWordNoSite(ws, i, prev);
    }
  }

  lemma SnatWordPlain(address: string, source: string, i: nat)
    requires i < 7 && i != 3
    ensures var w := SnatWords(address, source)[i]; w != [] && !IsDigit(w[0])
  {
  }

  lemma SnatDestination(prev: string, source: string, next: string)
    requires IsDotted(prev, 3) && IsDotted(next, 3)
    ensures RewriteWords(SnatWords(prev, source), prev, next)[3] == next + "/32"
  {
    FlagIsKey();
    AddressReplaced(SnatWords(prev, source), 3, prev, "/32", next);
  }

  /** And exactly the destination of the SNAT rule, never its source. */
  lemma SnatRewritten(prev: string, source: string, next: string)
    requires IsDotted(prev, 3) && IsDotted(next, 3)
    ensures RewriteWords(SnatWords(prev, source), prev, next) == SnatWords(next, source)
  {
    var ws, vs := SnatWords(prev, source), SnatWords(next, source);
    forall i | 0 <= i < 8
      ensures RewriteWords(ws, prev, next)[i] == vs[i]
    {
      if i == 3 {
        SnatDestination(prev, source, next);
      } else {
        SnatWordStays(prev, source, next, i);
      }
    }
    SameWords(RewriteWords(ws, prev, next), vs);
  }

  /** Lines that are not rules are not touched, whatever addresses they hold. */
  lemma OtherLinesStay(l: Line, prev: string, next: string)
    requires l.words == [] || l.words[0] != "-A"
    ensures RewriteLine(l, prev, next) == l && RuleDnat(l) == -1 && RuleSnat(l) == -1 && !RuleInstalled(l)
  {
  }

  // ----- where a pattern stops -----

  /** SNAT as a whole word, in any case: what follows it must not be a letter, a digit or an underscore. */
  lemma SnatWordIff(core: string, x: string)
    requires Lower(core) == "snat"
    ensures See(core + x).snat <==>
            x == [] || !('a' <= x[0] <= 'z' || 'A' <= x[0] <= 'Z' || '0' <= x[0] <= '9' || x[0] == '_')
  {
    var w := core + x;
    assert Lower(w)[..4] == Lower(core);
    assert "snat" <= Lower(w);
  }

  /** The destination of an SNAT rule is an address alone or with a mask of digits. */
  lemma NetWordIff(ip: string, x: string)
    requires IsDotted(ip, 3) && (x != [] ==> !IsDigit(x[0]))
    ensures See(ip + x).net <==> x == [] || (x[0] == '/' && IsNumber(x[1..]))
  {
    var w, n := ip + x, |ip|;
    TargetStarts(ip, x);
    if x != [] {
      assert w[n] == x[0] && w[n + 1..] == x[1..];
      if IsNumber(x[1..]) {
        DigitRunIs(x[1..], |x| - 1);
      }
    }
  }
}
