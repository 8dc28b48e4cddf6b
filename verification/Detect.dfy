/** Reading the proxy.sh DESTINATION out of the nat rules. */
module Detect {
  import opened Common
  import opened Words
  import opened Ipv4
  import opened RulesText

  /** `AZ_PROXY_DPORTS`. */
  predicate IsAzPort(n: nat)
  {
    n in {80, 443, 504, 508, 540, 580, 50080, 50443, 51080, 51443, 52080, 52443}
  }

  // ----- the patterns, on the words of one rule -----

  predicate IsWordChar(c: char)
  {
    IsDigit(c) || c == '_' || 'a' <= c <= 'z' || 'A' <= c <= 'Z'
  }

  /** `(quad)(?:/\d+)?` as a whole word. */
  predicate IsNetWord(w: string)
  {
    var n := QuadLen(w);
    n > 0 && (n == |w| || (w[n] == '/' && n + 1 < |w| && DigitRun(w[n + 1..]) == |w| - n - 1))
  }

  /** `SNAT\b` at the start of a word, ignoring case. */
  predicate IsSnatWord(w: string)
  {
    "snat" <= Lower(w) && (|w| == 4 || !IsWordChar(w[4]))
  }

  /** What the patterns ask about one word.  The two DNAT patterns and the SNAT pattern ignore case,
      the plain searches for `--dport` do not. */
  datatype Seen = Seen(
    port: bool,      // ends in --dport, ignoring case
    exactPort: bool, // ends in --dport
    jump: bool,      // ends in -j
    dnat: bool,      // is DNAT
    to: bool,        // is --to-destination
    flag: bool,      // ends in -d
    snat: bool,      // starts with SNAT\b
    digits: bool,    // starts with a digit
    quad: bool,      // starts with a dotted address
    net: bool,       // is a dotted address with an optional mask
    mentions: bool)  // holds DNAT, ignoring case

  function See(w: string): Seen
  {
    var low := Lower(w);
    Seen(EndsWith(low, "--dport"), EndsWith(w, "--dport"), EndsWith(low, "-j"), low == "dnat",
         low == TO_DESTINATION, EndsWith(low, DEST_FLAG), IsSnatWord(w), DigitRun(w) >= 1,
         QuadLen(w) > 0, IsNetWord(w), Contains(low, "dnat"))
  }

  function SeeAll(ws: seq<string>): (v: seq<Seen>)
    ensures |v| == |ws|
  {
    if ws == [] then [] else [See(ws[0])] + SeeAll(ws[1..])
  }

  /** The number each word starts with, `int(m.group(1))`. */
  function Numbers(ws: seq<string>): (n: seq<nat>)
    ensures |n| == |ws|
  {
    if ws == [] then [] else [Number(ws[0][..DigitRun(ws[0])])] + Numbers(ws[1..])
  }

  lemma {:induction false} SeenAt(ws: seq<string>, i: nat)
    requires i < |ws|
    ensures SeeAll(ws)[i] == See(ws[i])
    ensures Numbers(ws)[i] == Number(ws[i][..DigitRun(ws[i])])
  {
    if i > 0 {
      SeenAt(ws[1..], i - 1);
    }
  }

  /** `--dport\s+(\d+)`. */
  predicate PortAt(v: seq<Seen>, i: int, ignoreCase: bool)
  {
    0 <= i && i + 1 < |v| && (if ignoreCase then v[i].port else v[i].exactPort) && v[i + 1].digits
  }

  /** `-j\s+DNAT\s+--to-destination\s+(quad)`; the address starts word `k + 3`. */
  predicate DnatToAt(v: seq<Seen>, k: int)
  {
    0 <= k && k + 3 < |v| && v[k].jump && v[k + 1].dnat && v[k + 2].to && v[k + 3].quad
  }

  /** `-j\s+SNAT\b`. */
  predicate SnatJump(v: seq<Seen>, k: int)
  {
    0 <= k && k + 1 < |v| && v[k].jump && v[k + 1].snat
  }

  /** Searches from word `lo` on; -1 when there is no match. */
  function PortFrom(v: seq<Seen>, ignoreCase: bool, lo: nat): (i: int)
    ensures i == -1 || PortAt(v, i, ignoreCase)
    decreases |v| - lo
  {
    if lo >= |v| then -1 else if PortAt(v, lo, ignoreCase) then lo else PortFrom(v, ignoreCase, lo + 1)
  }

  function DnatToFrom(v: seq<Seen>, lo: nat): (k: int)
    ensures k == -1 || (lo <= k && DnatToAt(v, k))
    decreases |v| - lo
  {
    if lo >= |v| then -1 else if DnatToAt(v, lo) then lo else DnatToFrom(v, lo + 1)
  }

  predicate SnatJumpFrom(v: seq<Seen>, lo: nat)
    decreases |v| - lo
  {
    lo < |v| && (SnatJump(v, lo) || SnatJumpFrom(v, lo + 1))
  }

  predicate Mentions(v: seq<Seen>)
  {
    exists i :: 0 <= i < |v| && v[i].mentions
  }

  /** `_DNAT_RE.search`: the first port, if some DNAT target follows it.  A later port that is
      followed by a target would give the first one a target too. */
  function DnatPort(v: seq<Seen>): (i: int)
    ensures i == -1 || (PortAt(v, i, true) && DnatToFrom(v, i + 1) != -1)
  {
    var i := PortFrom(v, true, 0);
    if i != -1 && DnatToFrom(v, i + 1) != -1 then i else -1
  }

  predicate OnAzPort(n: seq<nat>, i: int)
  {
    0 <= i && i + 1 < |n| && IsAzPort(n[i + 1])
  }

  /** Word index of the address one rule contributes to `dnat_ips`, or -1. */
  function DnatSite(v: seq<Seen>, n: seq<nat>): (j: int)
    ensures j == -1 || (3 <= j < |v| && v[j].quad)
  {
    var i, p, k := DnatPort(v), PortFrom(v, false, 0), DnatToFrom(v, 0);
    if i != -1 && OnAzPort(n, i) then DnatToFrom(v, i + 1) + 3
    else if Mentions(v) && p != -1 && k != -1 && OnAzPort(n, p) then k + 3
    else -1
  }

  /** `-d\s+(quad)(?:/\d+)?\s+.*?-j\s+SNAT\b`. */
  predicate SnatAt(v: seq<Seen>, i: int)
  {
    && 0 <= i && i + 1 < |v| && v[i].flag && v[i + 1].net && v[i + 1].quad
    && SnatJumpFrom(v, i + 2)
  }

  function SnatFrom(v: seq<Seen>, lo: nat): (i: int)
    ensures i == -1 || SnatAt(v, i)
    decreases |v| - lo
  {
    if lo >= |v| then -1 else if SnatAt(v, lo) then lo else SnatFrom(v, lo + 1)
  }

  /** `_SNAT_DEST_RE.search`: word index of its address, or -1. */
  function SnatSite(v: seq<Seen>): (j: int)
    ensures j == -1 || (0 < j < |v| && v[j].quad)
  {
    var i := SnatFrom(v, 0);
    if i == -1 then -1 else i + 1
  }

  // ----- whole text -----

  function RuleDnat(l: Line): (j: int)
    ensures j == -1 || (0 < j < |l.words| && QuadLen(l.words[j]) > 0)
  {
    if !IsRule(l) then -1
    else
      var j := DnatSite(SeeAll(l.words), Numbers(l.words));
      if j == -1 then -1 else (SeenAt(l.words, j); j)
  }

  function RuleSnat(l: Line): (j: int)
    ensures j == -1 || (0 < j < |l.words| && QuadLen(l.words[j]) > 0)
  {
    if !IsRule(l) then -1
    else
      var j := SnatSite(SeeAll(l.words));
      if j == -1 then -1 else (SeenAt(l.words, j); j)
  }

  /** What the two passes of detection read from one line. */
  datatype Read = Read(dnat: int, snat: int)

  function Reads(ls: seq<Line>): (r: seq<Read>)
    ensures |r| == |ls|
  {
    if ls == [] then [] else [Read(RuleDnat(ls[0]), RuleSnat(ls[0]))] + Reads(ls[1..])
  }

  lemma {:induction false} ReadAt(ls: seq<Line>, i: nat)
    requires i < |ls|
    ensures Reads(ls)[i] == Read(RuleDnat(ls[i]), RuleSnat(ls[i]))
  {
    if i > 0 {
      ReadAt(ls[1..], i - 1);
    }
  }

  function FirstDnat(rs: seq<Read>, lo: nat): (i: int)
    ensures i == -1 || (lo <= i < |rs| && rs[i].dnat != -1)
    decreases |rs| - lo
  {
    if lo >= |rs| then -1 else if rs[lo].dnat != -1 then lo else FirstDnat(rs, lo + 1)
  }

  function FirstSnat(rs: seq<Read>, lo: nat): (i: int)
    ensures i == -1 || (lo <= i < |rs| && rs[i].snat != -1)
    decreases |rs| - lo
  {
    if lo >= |rs| then -1 else if rs[lo].snat != -1 then lo else FirstSnat(rs, lo + 1)
  }

  /** The first DNAT rule on a known port, or -1. */
  function DnatLine(ls: seq<Line>): (i: int)
    ensures i == -1 || (0 <= i < |ls| && RuleDnat(ls[i]) != -1)
  {
    var i := FirstDnat(Reads(ls), 0);
    if i == -1 then -1 else (ReadAt(ls, i); i)
  }

  /** The first SNAT rule with `-d`, or -1. */
  function SnatLine(ls: seq<Line>): (i: int)
    ensures i == -1 || (0 <= i < |ls| && RuleSnat(ls[i]) != -1)
  {
    var i := FirstSnat(Reads(ls), 0);
    if i == -1 then -1 else (ReadAt(ls, i); i)
  }

  function AddressIn(ws: seq<string>, j: int): string
    requires 0 <= j < |ws| && QuadLen(ws[j]) > 0
  {
    ws[j][..QuadLen(ws[j])]
  }

  function DnatAddress(l: Line): string
    requires RuleDnat(l) != -1
  {
    AddressIn(l.words, RuleDnat(l))
  }

  function SnatAddress(l: Line): string
    requires RuleSnat(l) != -1
  {
    AddressIn(l.words, RuleSnat(l))
  }

  /** The address `detect_proxy_destination` reports. */
  function Found(ls: seq<Line>): Option<string>
  {
    var i, k := DnatLine(ls), SnatLine(ls);
    if i != -1 then Some(DnatAddress(ls[i])) else if k != -1 then Some(SnatAddress(ls[k])) else None
  }

  /** The addresses of the DNAT rules on known ports, in order. */
  function DnatAddresses(ls: seq<Line>, lo: nat): seq<string>
    decreases |ls| - lo
  {
    if lo >= |ls| then []
    else if RuleDnat(ls[lo]) == -1 then DnatAddresses(ls, lo + 1)
    else [DnatAddress(ls[lo])] + DnatAddresses(ls, lo + 1)
  }

  lemma {:induction false} FirstOfDnatAddresses(ls: seq<Line>, lo: nat)
    ensures DnatAddresses(ls, lo) == [] <==> FirstDnat(Reads(ls), lo) == -1
    ensures var i := FirstDnat(Reads(ls), lo);
            i != -1 ==> RuleDnat(ls[i]) != -1 && DnatAddresses(ls, lo)[0] == DnatAddress(ls[i])
    decreases |ls| - lo
  {
    if lo < |ls| {
      ReadAt(ls, lo);
      FirstOfDnatAddresses(ls, lo + 1);
    }
  }

  lemma FoundByDnat(ls: seq<Line>)
    ensures var ips := DnatAddresses(ls, 0);
            if ips != [] then Found(ls) == Some(ips[0]) else DnatLine(ls) == -1
  {
    FirstOfDnatAddresses(ls, 0);
  }

  lemma FoundBySnat(ls: seq<Line>)
    requires DnatLine(ls) == -1
    ensures var k := FirstSnat(Reads(ls), 0);
            if k == -1 then Found(ls) == None else RuleSnat(ls[k]) != -1 && Found(ls) == Some(SnatAddress(ls[k]))
  {
    if SnatLine(ls) != -1 {
      ReadAt(ls, SnatLine(ls));
    }
  }

  lemma SnatStep(ls: seq<Line>, i: nat)
    requires i < |ls|
    ensures FirstSnat(Reads(ls), i) == if RuleSnat(ls[i]) != -1 then i else FirstSnat(Reads(ls), i + 1)
  {
    ReadAt(ls, i);
  }

  /** `detect_proxy_destination`: collect the DNAT addresses, then fall back to SNAT. */
  method DetectProxyDestination(t: Text) returns (r: Option<string>)
    ensures r == Found(t.lines)
  {
    var dnatIps: seq<string> := [];
    for i := 0 to |t.lines|
      invariant dnatIps + DnatAddresses(t.lines, i) == DnatAddresses(t.lines, 0)
    {
      if RuleDnat(t.lines[i]) != -1 {
        dnatIps := dnatIps + [DnatAddress(t.lines[i])];
      }
    }
    assert dnatIps == DnatAddresses(t.lines, 0);
    FoundByDnat(t.lines);
    if dnatIps != [] {
      return Some(dnatIps[0]);
    }
    FoundBySnat(t.lines);
    for i := 0 to |t.lines|
      invariant FirstSnat(Reads(t.lines), 0) == FirstSnat(Reads(t.lines), i)
    {
      SnatStep(t.lines, i);
      if RuleSnat(t.lines[i]) != -1 {
        return Some(SnatAddress(t.lines[i]));
      }
    }
    return None;
  }

  predicate RuleInstalled(l: Line)
  {
    && IsRule(l)
    && var v, n := SeeAll(l.words), Numbers(l.words);
       || (PortFrom(v, false, 0) != -1 && Mentions(v) && OnAzPort(n, PortFrom(v, false, 0)))
       || SnatSite(v) != -1
  }

  /** `is_proxy_installed`. */
  predicate Installed(ls: seq<Line>)
  {
    exists i :: 0 <= i < |ls| && RuleInstalled(ls[i])
  }

  // ----- the rewrite moves no pattern -----

  lemma LowerCat(a: string, b: string)
    requires AllAddr(a)
    ensures Lower(a + b) == a + Lower(b)
  {
  }

  lemma OccursShifted(a: string, b: string, p: string, i: int)
    requires 0 <= i
    ensures OccursAt(b, i, p) <==> OccursAt(a + b, |a| + i, p)
  {
    var s := a + b;
    if i + |p| <= |b| {
      assert s[|a| + i..|a| + i + |p|] == b[i..i + |p|];
    }
  }

  lemma OccursBehind(a: string, b: string, p: string, i: int)
    requires AllAddr(a) && p != [] && !IsAddrChar(p[0]) && OccursAt(a + b, i, p)
    ensures i >= |a|
  {
    assert (a + b)[i] == (a + b)[i..i + |p|][0];
  }

  /** An address in front of a word does not take part in a literal that holds no address character. */
  lemma ContainsInTail(a: string, b: string, p: string)
    requires AllAddr(a) && p != [] && !IsAddrChar(p[0])
    ensures Contains(a + b, p) == Contains(b, p)
  {
    if Contains(a + b, p) {
      var i :| 0 <= i <= |a + b| && OccursAt(a + b, i, p);
      OccursBehind(a, b, p, i);
      OccursShifted(a, b, p, i - |a|);
    }
    if Contains(b, p) {
      var i :| 0 <= i <= |b| && OccursAt(b, i, p);
      OccursShifted(a, b, p, i);
    }
  }

  /** What a replaced word keeps: its endings and the literals in it. */
  lemma ReplacedEnding(w: string, prev: string, next: string, key: string)
    requires IsDotted(prev, 3) && IsDotted(next, 3) && AddrAt(w, prev)
    requires key != [] && !IsAddrChar(key[0])
    ensures EndsWith(Lower(Subst(true, w, prev, next)), key) == EndsWith(Lower(w), key)
    ensures Contains(Lower(Subst(true, w, prev, next)), key) == Contains(Lower(w), key)
  {
    var rest := w[|prev|..];
    DottedChars(prev, 3);
    DottedChars(next, 3);
    assert w == prev + rest;
    LowerCat(prev, rest);
    LowerCat(next, rest);
    TailKeepsEnding(prev, next, Lower(rest), key);
    ContainsInTail(prev, Lower(rest), key);
    ContainsInTail(next, Lower(rest), key);
  }

  /** It starts with an address before and after. */
  lemma ReplacedAddress(w: string, prev: string, next: string)
    requires IsDotted(prev, 3) && IsDotted(next, 3) && AddrAt(w, prev)
    ensures var v := Subst(true, w, prev, next);
            && QuadLen(w) == |prev| && QuadLen(v) == |next| && v[..|next|] == next
            && v != [] && IsDigit(v[0]) && w != [] && IsDigit(w[0])
  {
    DottedChars(prev, 3);
    DottedChars(next, 3);
    SubstAddr(w, prev, next);
    QuadOfAddress(w, prev);
    QuadOfAddress(Subst(true, w, prev, next), next);
  }

  lemma ReplacedNet(w: string, prev: string, next: string)
    requires IsDotted(prev, 3) && IsDotted(next, 3) && AddrAt(w, prev)
    ensures IsNetWord(Subst(true, w, prev, next)) == IsNetWord(w)
  {
    var v := Subst(true, w, prev, next);
    ReplacedAddress(w, prev, next);
    SameMask(w, v, |prev|, |next|);
  }

  lemma SameMask(w: string, v: string, n: nat, m: nat)
    requires n <= |w| && m <= |v| && w[n..] == v[m..]
    ensures |w| - n == |v| - m
    ensures n < |w| ==> w[n] == v[m] && w[n + 1..] == v[m + 1..]
  {
    assert |w[n..]| == |v[m..]|;
    if n < |w| {
      assert w[n] == w[n..][0] && v[m] == v[m..][0];
      assert w[n + 1..] == w[n..][1..] && v[m + 1..] == v[m..][1..];
    }
  }

  /** The patterns see the same in a replaced word. */
  lemma ReplacedSeen(w: string, prev: string, next: string)
    requires IsDotted(prev, 3) && IsDotted(next, 3) && AddrAt(w, prev)
    ensures See(Subst(true, w, prev, next)) == See(w)
  {
    var v := Subst(true, w, prev, next);
    ReplacedEnding(w, prev, next, "--dport");
    ReplacedEnding(w, prev, next, "-j");
    ReplacedEnding(w, prev, next, DEST_FLAG);
    ReplacedEnding(w, prev, next, "dnat");
    SubstKeepsEnding(true, w, prev, next, "--dport");
    ReplacedAddress(w, prev, next);
    ReplacedNet(w, prev, next);
    DigitsFirst(v);
    DigitsFirst(w);
  }

  lemma DigitsFirst(w: string)
    requires w != [] && IsDigit(w[0])
    ensures DigitRun(w) >= 1 && Lower(w) != "dnat" && Lower(w) != TO_DESTINATION && !IsSnatWord(w)
  {
    assert Lower(w)[0] == w[0];
  }

  /** The patterns see the same in a rewritten rule. */
  lemma SeenStays(ws: seq<string>, prev: string, next: string)
    requires IsDotted(prev, 3) && IsDotted(next, 3)
    ensures SeeAll(RewriteWords(ws, prev, next)) == SeeAll(ws)
  {
    var vs := RewriteWords(ws, prev, next);
    forall i | 0 <= i < |ws|
      ensures SeeAll(vs)[i] == SeeAll(ws)[i]
    {
      RewriteAt(ws, prev, next, i);
      SeenAt(vs, i);
      SeenAt(ws, i);
      if IsSite(ws, i, prev) {
        ReplacedSeen(ws[i], prev, next);
      }
    }
  }

  lemma LastChar(w: string, key: string)
    requires key != [] && EndsWith(w, key)
    ensures w != [] && w[|w| - 1] == key[|key| - 1]
  {
    assert w[|w| - |key|..][|key| - 1] == w[|w| - 1];
  }

  /** The word behind `--dport` is not a destination, so its number stays. */
  lemma PortIsNoKey(w: string)
    requires See(w).port || See(w).exactPort
    ensures !IsDestKey(w)
  {
    if See(w).port {
      LastChar(Lower(w), "--dport");
    } else {
      LastChar(w, "--dport");
    }
    if EndsWith(w, TO_DESTINATION) {
      LastChar(w, TO_DESTINATION);
    }
    if EndsWith(w, DEST_FLAG) {
      LastChar(w, DEST_FLAG);
    }
  }

  predicate SamePorts(v: seq<Seen>, n: seq<nat>, m: seq<nat>)
  {
    && |n| == |m| == |v|
    && forall i :: 0 <= i < |v| - 1 && (v[i].port || v[i].exactPort) ==> n[i + 1] == m[i + 1]
  }

  lemma PortStays(ws: seq<string>, prev: string, next: string, i: nat)
    requires IsDotted(prev, 3) && IsDotted(next, 3) && i + 1 < |ws|
    requires SeeAll(ws)[i].port || SeeAll(ws)[i].exactPort
    ensures Numbers(RewriteWords(ws, prev, next))[i + 1] == Numbers(ws)[i + 1]
  {
    SeenAt(ws, i);
    PortIsNoKey(ws[i]);
    RewriteAt(ws, prev, next, i + 1);
    SeenAt(ws, i + 1);
    SeenAt(RewriteWords(ws, prev, next), i + 1);
  }

  lemma PortsStay(ws: seq<string>, prev: string, next: string)
    requires IsDotted(prev, 3) && IsDotted(next, 3)
    ensures SamePorts(SeeAll(ws), Numbers(ws), Numbers(RewriteWords(ws, prev, next)))
  {
    forall i | 0 <= i < |ws| - 1 && (SeeAll(ws)[i].port || SeeAll(ws)[i].exactPort)
      ensures Numbers(RewriteWords(ws, prev, next))[i + 1] == Numbers(ws)[i + 1]
    {
      PortStays(ws, prev, next, i);
    }
  }

  lemma SamePortsSameSite(v: seq<Seen>, n: seq<nat>, m: seq<nat>)
    requires SamePorts(v, n, m)
    ensures DnatSite(v, n) == DnatSite(v, m)
    ensures PortFrom(v, false, 0) != -1 ==> OnAzPort(n, PortFrom(v, false, 0)) == OnAzPort(m, PortFrom(v, false, 0))
  {
  }

  lemma RuleStays(l: Line, prev: string, next: string)
    requires IsDotted(prev, 3) && IsDotted(next, 3)
    ensures RuleDnat(RewriteLine(l, prev, next)) == RuleDnat(l)
    ensures RuleSnat(RewriteLine(l, prev, next)) == RuleSnat(l)
    ensures RuleInstalled(RewriteLine(l, prev, next)) == RuleInstalled(l)
  {
    RewriteKeepsRules(l, prev, next);
    if IsRule(l) {
      GuardNeverSuppresses(l, prev, next);
      SeenStays(l.words, prev, next);
      PortsStay(l.words, prev, next);
      SamePortsSameSite(SeeAll(l.words), Numbers(l.words), Numbers(RewriteWords(l.words, prev, next)));
    }
  }

  lemma ReadsStay(t: Text, prev: string, next: string)
    requires IsDotted(prev, 3) && IsDotted(next, 3)
    ensures Reads(RewriteText(t, prev, next).lines) == Reads(t.lines)
  {
    var ls, ms := t.lines, RewriteText(t, prev, next).lines;
    forall i | 0 <= i < |ls|
      ensures Reads(ms)[i] == Reads(ls)[i]
    {
      ReadAt(ls, i);
      ReadAt(ms, i);
      RuleStays(ls[i], prev, next);
    }
  }

  /** The rewrite never changes whether the proxy counts as installed. */
  lemma InstalledStays(t: Text, prev: string, next: string)
    requires IsDestination(prev) && IsDestination(next)
    ensures Installed(RewriteText(t, prev, next).lines) == Installed(t.lines)
  {
    var ls, ms := t.lines, RewriteText(t, prev, next).lines;
    forall i: nat | i < |ls|
      ensures RuleInstalled(ms[i]) == RuleInstalled(ls[i])
    {
      RuleStays(ls[i], prev, next);
    }
  }

  /** The rule that detection read has its keyword in the exact case the rewrite looks for, and
      the address it read is not cut short by a further digit. */
  predicate ReadsExactly(ls: seq<Line>)
    requires Found(ls).Some?
  {
    var i, k := DnatLine(ls), SnatLine(ls);
    if i != -1 then IsSite(ls[i].words, RuleDnat(ls[i]), Found(ls).value)
    else IsSite(ls[k].words, RuleSnat(ls[k]), Found(ls).value)
  }

  lemma AddressAfter(ws: seq<string>, prev: string, next: string, j: nat)
    requires IsDotted(prev, 3) && IsDotted(next, 3) && j < |ws| && QuadLen(ws[j]) > 0
    ensures QuadLen(RewriteWords(ws, prev, next)[j]) > 0
    ensures AddressIn(RewriteWords(ws, prev, next), j) ==
            if IsSite(ws, j, prev) then next else AddressIn(ws, j)
  {
    RewriteAt(ws, prev, next, j);
    if IsSite(ws, j, prev) {
      ReplacedAddress(ws[j], prev, next);
    }
  }

  lemma RuleAddressAfter(l: Line, prev: string, next: string)
    requires IsDotted(prev, 3) && IsDotted(next, 3)
    ensures var m := RewriteLine(l, prev, next);
            && (RuleDnat(l) != -1 ==>
                  && RuleDnat(m) != -1
                  && DnatAddress(m) == if IsSite(l.words, RuleDnat(l), prev) then next else DnatAddress(l))
            && (RuleSnat(l) != -1 ==>
                  && RuleSnat(m) != -1
                  && SnatAddress(m) == if IsSite(l.words, RuleSnat(l), prev) then next else SnatAddress(l))
  {
    RuleStays(l, prev, next);
    if IsRule(l) {
      GuardNeverSuppresses(l, prev, next);
      if RuleDnat(l) != -1 {
        AddressAfter(l.words, prev, next, RuleDnat(l));
      }
      if RuleSnat(l) != -1 {
        AddressAfter(l.words, prev, next, RuleSnat(l));
      }
    }
  }

  /** After the rewrite detection reports the new address, through the DNAT path and through the
      SNAT fallback alike, if and only if it had read the old one exactly; otherwise it goes on
      reporting the old address. */
  lemma DetectAfterRewrite(t: Text, prev: string, next: string)
    requires IsDestination(prev) && IsDestination(next) && prev != next
    requires Found(t.lines) == Some(prev)
    ensures Found(RewriteText(t, prev, next).lines) == Some(if ReadsExactly(t.lines) then next else prev)
  {
    ReadsStay(t, prev, next);
    var i, k := DnatLine(t.lines), SnatLine(t.lines);
    if i != -1 {
      RuleAddressAfter(t.lines[i], prev, next);
    } else {
      RuleAddressAfter(t.lines[k], prev, next);
    }
  }

  /** Every port flag in the rules is in lower case, as iptables-save prints it. */
  predicate PortsInLowerCase(ls: seq<Line>)
  {
    forall i :: 0 <= i < |ls| && IsRule(ls[i]) ==> PortWordsInLowerCase(ls[i].words)
  }

  predicate PortWordsInLowerCase(ws: seq<string>)
  {
    forall j :: 0 <= j < |ws| && EndsWith(Lower(ws[j]), "--dport") ==> EndsWith(ws[j], "--dport")
  }

  lemma DetectedRuleInstalled(l: Line)
    requires IsRule(l) && PortWordsInLowerCase(l.words)
    requires RuleDnat(l) != -1 || RuleSnat(l) != -1
    ensures RuleInstalled(l)
  {
    var ws := l.words;
    SeenPortCase(ws);
    if RuleDnat(l) != -1 {
      DnatNeedsExactPort(SeeAll(ws), Numbers(ws));
    }
  }

  lemma SeenPortCase(ws: seq<string>)
    requires PortWordsInLowerCase(ws)
    ensures forall i :: 0 <= i < |ws| ==>
              SeeAll(ws)[i].port == SeeAll(ws)[i].exactPort && (SeeAll(ws)[i].dnat ==> SeeAll(ws)[i].mentions)
  {
    forall i | 0 <= i < |ws|
      ensures SeeAll(ws)[i].port == SeeAll(ws)[i].exactPort && (SeeAll(ws)[i].dnat ==> SeeAll(ws)[i].mentions)
    {
      SeenAt(ws, i);
      SeenCase(ws[i]);
    }
  }

  lemma SeenCase(w: string)
    requires EndsWith(Lower(w), "--dport") ==> EndsWith(w, "--dport")
    ensures See(w).port == See(w).exactPort && (See(w).dnat ==> See(w).mentions)
  {
    SeeImplies(w);
  }

  lemma DnatNeedsExactPort(v: seq<Seen>, n: seq<nat>)
    requires forall i :: 0 <= i < |v| ==> v[i].port == v[i].exactPort && (v[i].dnat ==> v[i].mentions)
    requires DnatSite(v, n) != -1
    ensures PortFrom(v, false, 0) != -1 && Mentions(v) && OnAzPort(n, PortFrom(v, false, 0))
  {
    SamePortWords(v, 0);
    DnatMentions(v, n);
    assert DnatPort(v) != -1 ==> DnatPort(v) == PortFrom(v, true, 0);
  }

  lemma {:induction false} SamePortWords(v: seq<Seen>, lo: nat)
    requires forall i :: 0 <= i < |v| ==> v[i].port == v[i].exactPort
    ensures PortFrom(v, true, lo) == PortFrom(v, false, lo)
    decreases |v| - lo
  {
    if lo < |v| {
      SamePortWords(v, lo + 1);
    }
  }

  lemma LowerEnding(w: string, key: string)
    requires EndsWith(w, key) && Lower(key) == key
    ensures EndsWith(Lower(w), key)
  {
    assert Lower(w)[|w| - |key|..] == Lower(w[|w| - |key|..]);
  }

  /** The rule has at most one port flag, ignoring case. */
  ghost predicate OneFlag(v: seq<Seen>)
  {
    forall i, j :: PortAt(v, i, true) && PortAt(v, j, true) ==> i == j
  }

  /** Some port flag is in lower case. */
  ghost predicate LowerFlag(v: seq<Seen>)
  {
    exists i :: PortAt(v, i, false)
  }

  lemma FlagDecides(v: seq<Seen>, n: seq<nat>)
    requires forall i :: 0 <= i < |v| ==> (v[i].exactPort ==> v[i].port) && (v[i].dnat ==> v[i].mentions)
    requires OneFlag(v) && DnatSite(v, n) != -1
    ensures (PortFrom(v, false, 0) != -1 && Mentions(v) && OnAzPort(n, PortFrom(v, false, 0))) <==>
            LowerFlag(v)
  {
    var i, p := DnatPort(v), PortFrom(v, false, 0);
    if i != -1 {
      assert v[DnatToFrom(v, i + 1) + 1].mentions;
    }
    if p != -1 {
      assert PortAt(v, p, true);
    } else {
      NoneFrom(v, 0);
    }
  }

  lemma {:induction false} NoneFrom(v: seq<Seen>, lo: nat)
    requires PortFrom(v, false, lo) == -1
    ensures forall i :: i >= lo ==> !PortAt(v, i, false)
    decreases |v| - lo
  {
    if lo < |v| {
      NoneFrom(v, lo + 1);
    }
  }

  lemma SeeImplies(w: string)
    ensures (See(w).exactPort ==> See(w).port) && (See(w).dnat ==> See(w).mentions)
  {
    if EndsWith(w, "--dport") {
      LowerEnding(w, "--dport");
    }
    if Lower(w) == "dnat" {
      assert OccursAt(Lower(w), 0, "dnat");
    }
  }

  lemma SeenImplies(ws: seq<string>, i: nat)
    requires i < |ws|
    ensures (SeeAll(ws)[i].exactPort ==> SeeAll(ws)[i].port) && (SeeAll(ws)[i].dnat ==> SeeAll(ws)[i].mentions)
  {
    SeenAt(ws, i);
    SeeImplies(ws[i]);
  }

  /** The first port flag in lower case has a known port. */
  predicate LowerKnownPort(ws: seq<string>)
  {
    var p := PortFrom(SeeAll(ws), false, 0);
    p != -1 && OnAzPort(Numbers(ws), p)
  }

  lemma DnatMentions(v: seq<Seen>, n: seq<nat>)
    requires forall i :: 0 <= i < |v| ==> (v[i].dnat ==> v[i].mentions)
    requires DnatSite(v, n) != -1
    ensures Mentions(v)
  {
    var i := DnatPort(v);
    if i != -1 {
      assert v[DnatToFrom(v, i + 1) + 1].mentions;
    }
  }

  lemma ReadMentions(l: Line)
    requires RuleDnat(l) != -1
    ensures Mentions(SeeAll(l.words))
  {
    var v := SeeAll(l.words);
    forall i | 0 <= i < |v|
      ensures v[i].dnat ==> v[i].mentions
    {
      SeenImplies(l.words, i);
    }
    DnatMentions(v, Numbers(l.words));
  }

  /** The exact condition for a rule: one whose address detection reports counts as installed if and only
      if it is an SNAT rule too or its first port flag in lower case has a known port. */
  lemma DetectedRuleInstalledIff(l: Line)
    requires RuleDnat(l) != -1
    ensures RuleInstalled(l) <==> RuleSnat(l) != -1 || LowerKnownPort(l.words)
  {
    ReadMentions(l);
  }

  /** With one port flag that means that the flag is in lower case. */
  lemma OneFlagDecides(l: Line)
    requires RuleDnat(l) != -1 && OneFlag(SeeAll(l.words))
    ensures LowerKnownPort(l.words) <==> LowerFlag(SeeAll(l.words))
  {
    var v, n := SeeAll(l.words), Numbers(l.words);
    forall i | 0 <= i < |v|
      ensures (v[i].exactPort ==> v[i].port) && (v[i].dnat ==> v[i].mentions)
    {
      SeenImplies(l.words, i);
    }
    FlagDecides(v, n);
    DnatMentions(v, n);
  }

  lemma {:induction false} SomeSnat(rs: seq<Read>, lo: nat, i: nat)
    requires lo <= i < |rs| && rs[i].snat != -1
    ensures FirstSnat(rs, lo) != -1
    decreases i - lo
  {
    if rs[lo].snat == -1 {
      SomeSnat(rs, lo + 1, i);
    }
  }

  predicate HoldsDnat(l: Line) { IsRule(l) && Mentions(SeeAll(l.words)) }

  /** For every text: a destination is reported for a proxy that counts as not installed if and only if
      it is read from a DNAT rule, there is no SNAT rule with `-d`, and no rule that holds DNAT has a
      known port behind its first flag in lower case. */
  lemma DetectedNotInstalledIff(ls: seq<Line>)
    ensures Found(ls).Some? && !Installed(ls) <==>
            && DnatLine(ls) != -1 && SnatLine(ls) == -1
            && forall i :: 0 <= i < |ls| && HoldsDnat(ls[i]) ==> !LowerKnownPort(ls[i].words)
  {
    if SnatLine(ls) != -1 {
      assert RuleInstalled(ls[SnatLine(ls)]);
    }
    forall i: nat | i < |ls|
      ensures RuleInstalled(ls[i]) ==> SnatLine(ls) != -1 || (HoldsDnat(ls[i]) && LowerKnownPort(ls[i].words))
      ensures HoldsDnat(ls[i]) && LowerKnownPort(ls[i].words) ==> RuleInstalled(ls[i])
    {
      ReadAt(ls, i);
      if RuleSnat(ls[i]) != -1 {
        SomeSnat(Reads(ls), 0, i);
      }
    }
  }

  /** A detected destination means that the proxy counts as installed. */
  lemma DetectedImpliesInstalled(ls: seq<Line>)
    requires PortsInLowerCase(ls)
    ensures Found(ls).Some? ==> Installed(ls)
  {
    if Found(ls).Some? {
      DetectedRuleInstalled(ls[if DnatLine(ls) != -1 then DnatLine(ls) else SnatLine(ls)]);
    }
  }

  lemma JumpSeen()
    ensures See("-j").jump && See("DNAT").dnat
  {
    assert Lower("-j") == "-j" && Lower("DNAT") == "dnat";
  }

  lemma DnatMentioned()
    ensures See("DNAT").mentions
  {
    assert Lower("DNAT") == "dnat";
    assert OccursAt(Lower("DNAT"), 0, "dnat");
  }

  /** A reported address starts and ends with a digit. */
  lemma FoundIsTrimmed(ls: seq<Line>)
    requires Found(ls).Some?
    ensures var ip := Found(ls).value; ip != [] && IsDigit(ip[0]) && IsDigit(ip[|ip| - 1])
  {
    var i, k := DnatLine(ls), SnatLine(ls);
    if i != -1 {
      GroupsDigits(ls[i].words[RuleDnat(ls[i])], 3);
    } else {
      GroupsDigits(ls[k].words[RuleSnat(ls[k])], 3);
    }
  }

  // ----- literal words -----

  lemma LowerTo(w: string)
    requires Lower(w) == TO_DESTINATION
    ensures See(w).to
  {
  }

  lemma ToSeen()
    ensures See(TO_DESTINATION).to
  {
    assert Lower(TO_DESTINATION) == TO_DESTINATION;
    LowerTo(TO_DESTINATION);
  }

  lemma JumpAt(ws: seq<string>, k: nat)
    requires k < |ws| && ws[k] == "-j"
    ensures SeeAll(ws)[k].jump
  {
    SeenAt(ws, k);
    JumpSeen();
  }

  lemma DnatAt(ws: seq<string>, k: nat)
    requires k < |ws| && ws[k] == "DNAT"
    ensures SeeAll(ws)[k].dnat
  {
    SeenAt(ws, k);
    JumpSeen();
  }

  lemma ToAt(ws: seq<string>, k: nat)
    requires k < |ws| && ws[k] == TO_DESTINATION
    ensures SeeAll(ws)[k].to
  {
    SeenAt(ws, k);
    ToSeen();
  }

  lemma QuadAt(ws: seq<string>, k: nat)
    requires k < |ws| && QuadLen(ws[k]) > 0
    ensures SeeAll(ws)[k].quad
  {
    SeenAt(ws, k);
  }

  lemma DnatMentionedAt(ws: seq<string>, k: nat)
    requires k < |ws| && ws[k] == "DNAT"
    ensures Mentions(SeeAll(ws))
  {
    SeenAt(ws, k);
    DnatMentioned();
    assert SeeAll(ws)[k].mentions;
  }

  lemma SnatSeen()
    ensures See("SNAT").snat
  {
    assert Lower("SNAT") == "snat";
  }

  lemma SnatWordAt(ws: seq<string>, k: nat)
    requires k < |ws| && ws[k] == "SNAT"
    ensures SeeAll(ws)[k].snat
  {
    SeenAt(ws, k);
    SnatSeen();
  }

  // ----- the searches are leftmost -----

  lemma {:induction false} FirstDnatIs(rs: seq<Read>, lo: nat, i: nat)
    requires lo <= i < |rs| && rs[i].dnat != -1 && forall j :: lo <= j < i ==> rs[j].dnat == -1
    ensures FirstDnat(rs, lo) == i
    decreases i - lo
  {
    if lo < i {
      FirstDnatIs(rs, lo + 1, i);
    }
  }

  lemma {:induction false} FirstSnatIs(rs: seq<Read>, lo: nat, i: nat)
    requires lo <= i < |rs| && rs[i].snat != -1 && forall j :: lo <= j < i ==> rs[j].snat == -1
    ensures FirstSnat(rs, lo) == i
    decreases i - lo
  {
    if lo < i {
      FirstSnatIs(rs, lo + 1, i);
    }
  }

  lemma {:induction false} NoFirst(rs: seq<Read>, lo: nat)
    ensures (forall j :: lo <= j < |rs| ==> rs[j].dnat == -1) ==> FirstDnat(rs, lo) == -1
    ensures (forall j :: lo <= j < |rs| ==> rs[j].snat == -1) ==> FirstSnat(rs, lo) == -1
    decreases |rs| - lo
  {
    if lo < |rs| {
      NoFirst(rs, lo + 1);
    }
  }

  lemma ReadsAre(ls: seq<Line>)
    ensures forall j :: 0 <= j < |ls| ==> Reads(ls)[j] == Read(RuleDnat(ls[j]), RuleSnat(ls[j]))
  {
    forall j: nat | j < |ls|
      ensures Reads(ls)[j] == Read(RuleDnat(ls[j]), RuleSnat(ls[j]))
    {
      ReadAt(ls, j);
    }
  }

  /** The first DNAT rule that is read decides. */
  lemma FoundFirstDnat(ls: seq<Line>, i: nat)
    requires i < |ls| && RuleDnat(ls[i]) != -1 && forall j :: 0 <= j < i ==> RuleDnat(ls[j]) == -1
    ensures Found(ls) == Some(DnatAddress(ls[i]))
  {
    ReadsAre(ls);
    FirstDnatIs(Reads(ls), 0, i);
  }

  /** Without any, the first SNAT rule that is read. */
  lemma FoundFirstSnat(ls: seq<Line>, i: nat)
    requires forall j :: 0 <= j < |ls| ==> RuleDnat(ls[j]) == -1
    requires i < |ls| && RuleSnat(ls[i]) != -1 && forall j :: 0 <= j < i ==> RuleSnat(ls[j]) == -1
    ensures Found(ls) == Some(SnatAddress(ls[i]))
  {
    ReadsAre(ls);
    NoFirst(Reads(ls), 0);
    FirstSnatIs(Reads(ls), 0, i);
  }

  /** And nothing without either. */
  lemma NothingFound(ls: seq<Line>)
    requires forall j :: 0 <= j < |ls| ==> RuleDnat(ls[j]) == -1 && RuleSnat(ls[j]) == -1
    ensures Found(ls) == None
  {
    ReadsAre(ls);
    NoFirst(Reads(ls), 0);
  }

  /** A match of the first DNAT pattern: a port in word `i + 1`, ignoring case, and a target behind it. */
  predicate DnatMatch(v: seq<Seen>, i: int, k: int)
  {
    PortAt(v, i, true) && i < k && DnatToAt(v, k)
  }

  lemma {:induction false} PortIsFirst(v: seq<Seen>, ignoreCase: bool, lo: nat, i: int)
    requires lo <= i && PortAt(v, i, ignoreCase)
    ensures lo <= PortFrom(v, ignoreCase, lo) <= i
    decreases |v| - lo
  {
    if lo < i && !PortAt(v, lo, ignoreCase) {
      PortIsFirst(v, ignoreCase, lo + 1, i);
    }
  }

  lemma {:induction false} TargetIsFirst(v: seq<Seen>, lo: nat, k: int)
    requires lo <= k && DnatToAt(v, k)
    ensures lo <= DnatToFrom(v, lo) <= k
    decreases |v| - lo
  {
    if lo < k && !DnatToAt(v, lo) {
      TargetIsFirst(v, lo + 1, k);
    }
  }

  /** The pattern search finds the leftmost match, and for it the nearest target, if there is a match. */
  lemma DnatSearch(v: seq<Seen>, i: int, k: int)
    requires DnatMatch(v, i, k)
    ensures var p := DnatPort(v);
            p != -1 && DnatMatch(v, p, DnatToFrom(v, p + 1)) && p <= i && (p == i ==> DnatToFrom(v, p + 1) <= k)
  {
    PortIsFirst(v, true, 0, i);
    var p := PortFrom(v, true, 0);
    TargetIsFirst(v, p + 1, k);
  }
}
