/** Inputs that show the conditions of the detection theorems are needed. */
module DetectLimits {
  import opened Common
  import opened Words
  import opened Ipv4
  import opened RulesText
  import opened Detect

  /** A rule `-A PREROUTING <port> 80 -j DNAT <to> <address>`. */
  function PlainRule(port: string, to: string, address: string): Line
  {
    Line("", ["-A", "PREROUTING", port, "80", "-j", "DNAT", to, address],
         [" ", " ", " ", " ", " ", " ", " ", ""])
  }

  /** A literal word: nothing but what its own name says is seen in it. */
  lemma LiteralSeen(w: string)
    requires w != [] && !IsDigit(w[0]) && w[|w| - 1] !in {'d', 'D', 'j', 'J', 't', 'T'}
    ensures var s := See(w); !s.port && !s.exactPort && !s.jump && !s.flag && !s.digits && !s.quad && !s.net
  {
    var low := Lower(w);
    assert low[|low| - 1] == LowerChar(w[|w| - 1]);
    if EndsWith(low, "--dport") { LastChar(low, "--dport"); }
    if EndsWith(w, "--dport") { LastChar(w, "--dport"); }
    if EndsWith(low, "-j") { LastChar(low, "-j"); }
    if EndsWith(low, DEST_FLAG) { LastChar(low, DEST_FLAG); }
    DigitRunIs(w, 0);
  }

  lemma PortSeen(w: string)
    requires Lower(w) == "--dport"
    ensures See(w).port && !See(w).jump && (See(w).exactPort ==> w == "--dport")
  {
    LastChar(Lower(w), "--dport");
    assert EndsWith(w, "--dport") ==> w[0..] == "--dport";
  }

  lemma NumberSeen()
    ensures See("80").digits && !See("80").jump
    ensures Number("80"[..DigitRun("80")]) == 80
  {
    DigitRunIs("80", 2);
    assert Number("8") == 8 by { assert "8"[..0] == ""; }
    assert Number("80") == 80 by { assert "80"[..1] == "8"; }
    assert "80"[..2] == "80";
    assert Lower("80")[1] == '0';
    if EndsWith(Lower("80"), "-j") { LastChar(Lower("80"), "-j"); }
  }

  /** What is seen in a plain rule: in its first half, and from the jump on. */
  predicate PortHalf(v: seq<Seen>, n: seq<nat>)
  {
    && |v| == |n| == 8
    && !v[0].port && !v[1].port && v[2].port && v[3].digits && n[3] == 80
    && !v[0].jump && !v[1].jump && !v[2].jump && !v[3].jump
  }

  predicate JumpHalf(v: seq<Seen>)
  {
    |v| == 8 && v[4].jump && v[5].dnat && v[6].to && v[7].quad
  }

  lemma PlainIsDetected(v: seq<Seen>, n: seq<nat>)
    requires PortHalf(v, n) && JumpHalf(v)
    ensures DnatSite(v, n) == 7
  {
    assert PortFrom(v, true, 2) == 2;
    assert PortFrom(v, true, 1) == 2;
    assert PortFrom(v, true, 0) == 2;
    assert DnatToFrom(v, 4) == 4;
    assert DnatToFrom(v, 3) == 4;
  }

  lemma LiteralAt(ws: seq<string>, i: nat)
    requires i < |ws| && ws[i] != [] && !IsDigit(ws[i][0]) && ws[i][|ws[i]| - 1] !in {'d', 'D', 'j', 'J', 't', 'T'}
    ensures !SeeAll(ws)[i].port && !SeeAll(ws)[i].jump
  {
    SeenAt(ws, i);
    LiteralSeen(ws[i]);
  }

  lemma PortAtWord(ws: seq<string>, i: nat)
    requires i < |ws| && Lower(ws[i]) == "--dport"
    ensures SeeAll(ws)[i].port && !SeeAll(ws)[i].jump
  {
    SeenAt(ws, i);
    PortSeen(ws[i]);
  }

  lemma NumberAt(ws: seq<string>, i: nat)
    requires i < |ws| && ws[i] == "80"
    ensures SeeAll(ws)[i].digits && !SeeAll(ws)[i].jump && Numbers(ws)[i] == 80
  {
    SeenAt(ws, i);
    NumberSeen();
  }

  lemma PlainPortHalf(port: string, to: string, address: string)
    requires Lower(port) == "--dport"
    ensures var ws := PlainRule(port, to, address).words; PortHalf(SeeAll(ws), Numbers(ws))
  {
    var ws := PlainRule(port, to, address).words;
    LiteralAt(ws, 0);
    LiteralAt(ws, 1);
    PortAtWord(ws, 2);
    NumberAt(ws, 3);
  }

  lemma PlainJumpHalf(port: string, to: string, address: string)
    requires Lower(to) == TO_DESTINATION && QuadLen(address) > 0
    ensures JumpHalf(SeeAll(PlainRule(port, to, address).words))
  {
    var ws := PlainRule(port, to, address).words;
    SeenAt(ws, 4);
    SeenAt(ws, 5);
    JumpSeen();
    SeenAt(ws, 6);
    SeenAt(ws, 7);
  }

  lemma PlainRuleDetected(port: string, to: string, address: string)
    requires Lower(port) == "--dport" && Lower(to) == TO_DESTINATION && QuadLen(address) > 0
    ensures RuleDnat(PlainRule(port, to, address)) == 7
  {
    var ws := PlainRule(port, to, address).words;
    PlainPortHalf(port, to, address);
    PlainJumpHalf(port, to, address);
    PlainIsDetected(SeeAll(ws), Numbers(ws));
  }

  /** When detection of a plain rule reads it exactly. */
  lemma PlainRuleReads(port: string, to: string, w: string)
    requires Lower(port) == "--dport" && Lower(to) == TO_DESTINATION && QuadLen(w) > 0
    ensures var ls := [PlainRule(port, to, w)];
            && Found(ls) == Some(w[..QuadLen(w)])
            && (ReadsExactly(ls) <==> IsDestKey(to) && AddrAt(w, w[..QuadLen(w)]))
  {
    PlainRuleDetected(port, to, w);
  }

  lemma CutLength()
    ensures QuadLen("10.0.0.1234") == 10
  {
    var w := "10.0.0.1234";
    DigitRunIs(w, 2);
    DigitRunIs(w[3..], 1);
    DigitRunIs(w[3..][2..], 1);
    DigitRunIs(w[3..][2..][2..], 4);
    assert GroupsLen(w[3..][2..][2..], 0) == 3;
    assert GroupsLen(w[3..][2..], 1) == 5;
    assert GroupsLen(w[3..], 2) == 7;
  }

  /** A fourth digit in the last group, as in 10.0.0.1234: detection cuts the address at three
      digits, and the rewrite does not find what it reports as a whole address. */
  lemma DetectCutShort(w: string)
    requires 0 < QuadLen(w) < |w| && IsDigit(w[QuadLen(w)])
    ensures var ls := [PlainRule("--dport", TO_DESTINATION, w)];
            Found(ls) == Some(w[..QuadLen(w)]) && !ReadsExactly(ls)
  {
    assert Lower("--dport") == "--dport" && Lower(TO_DESTINATION) == TO_DESTINATION;
    PlainRuleReads("--dport", TO_DESTINATION, w);
  }

  lemma UnlikeSnat(w: string)
    requires w != [] && w[0] != 's' && w[0] != 'S'
    ensures !See(w).snat
  {
    assert Lower(w)[0] == LowerChar(w[0]);
  }

  lemma {:induction false} NotInstalled(v: seq<Seen>, lo: nat)
    requires forall i :: 0 <= i < |v| ==> !v[i].exactPort && !v[i].snat
    ensures PortFrom(v, false, lo) == -1 && !SnatJumpFrom(v, lo) && SnatFrom(v, lo) == -1
    decreases |v| - lo
  {
    if lo < |v| {
      NotInstalled(v, lo + 1);
      assert !SnatJumpFrom(v, lo + 2) by {
        NoJump(v, lo + 2);
      }
    }
  }

  lemma {:induction false} NoJump(v: seq<Seen>, lo: nat)
    requires forall i :: 0 <= i < |v| ==> !v[i].snat
    ensures !SnatJumpFrom(v, lo)
    decreases |v| - lo
  {
    if lo < |v| {
      NoJump(v, lo + 1);
    }
  }

  predicate Quiet(w: string) { !See(w).exactPort && !See(w).snat }

  lemma QuietWord(w: string)
    requires w != [] && w[0] != 's' && w[0] != 'S' && w[|w| - 1] != 't'
    ensures Quiet(w)
  {
    UnlikeSnat(w);
    if EndsWith(w, "--dport") { LastChar(w, "--dport"); }
  }

  lemma QuietPort(port: string)
    requires Lower(port) == "--dport" && port != "--dport"
    ensures Quiet(port)
  {
    PortSeen(port);
    assert LowerChar(port[0]) == Lower(port)[0];
    UnlikeSnat(port);
  }

  lemma QuietRule(l: Line)
    requires forall i :: 0 <= i < |l.words| ==> Quiet(l.words[i])
    ensures !RuleInstalled(l)
  {
    var v := SeeAll(l.words);
    forall i: nat | i < |v|
      ensures !v[i].exactPort && !v[i].snat
    {
      SeenAt(l.words, i);
      assert Quiet(l.words[i]);
    }
    NotInstalled(v, 0);
  }

  /** With the flag in upper case the two DNAT patterns still match but `is_proxy_installed` does
      not: a destination is reported for a proxy that is reported as not installed. */
  lemma DetectedNotInstalled(port: string, w: string)
    requires Lower(port) == "--dport" && port != "--dport" && IsDotted(w, 3)
    ensures var ls := [PlainRule(port, TO_DESTINATION, w)]; Found(ls).Some? && !Installed(ls)
  {
    assert Lower(TO_DESTINATION) == TO_DESTINATION;
    QuadOfAddress(w, w);
    PlainRuleReads(port, TO_DESTINATION, w);
    UpperRuleQuiet(port, w);
  }

  lemma UpperRuleQuiet(port: string, w: string)
    requires Lower(port) == "--dport" && port != "--dport" && IsDotted(w, 3)
    ensures !RuleInstalled(PlainRule(port, TO_DESTINATION, w))
  {
    var l := PlainRule(port, TO_DESTINATION, w);
    forall i | 0 <= i < |l.words|
      ensures Quiet(l.words[i])
    {
      QuietAt(port, w, i);
    }
    QuietRule(l);
  }

  lemma QuietLiteral(i: nat)
    requires i < 7 && i != 2
    ensures Quiet(["-A", "PREROUTING", "", "80", "-j", "DNAT", TO_DESTINATION][i])
  {
    QuietWord(["-A", "PREROUTING", "", "80", "-j", "DNAT", TO_DESTINATION][i]);
  }

  lemma PlainWords(port: string, w: string, i: nat)
    requires i < 8
    ensures PlainRule(port, TO_DESTINATION, w).words[i] ==
            if i == 2 then port else if i == 7 then w
            else ["-A", "PREROUTING", "", "80", "-j", "DNAT", TO_DESTINATION][i]
  {
  }

  lemma QuietAt(port: string, w: string, i: nat)
    requires Lower(port) == "--dport" && port != "--dport" && IsDotted(w, 3) && i < 8
    ensures Quiet(PlainRule(port, TO_DESTINATION, w).words[i])
  {
    PlainWords(port, w, i);
    if i == 2 {
      QuietPort(port);
    } else if i == 7 {
      QuietAddress(w);
    } else {
      QuietLiteral(i);
    }
  }

  lemma QuietAddress(w: string)
    requires IsDotted(w, 3)
    ensures Quiet(w)
  {
    DottedChars(w, 3);
    DigitsFirst(w);
    if EndsWith(w, "--dport") { LastChar(w, "--dport"); }
  }
}
