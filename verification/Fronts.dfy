/** Failover fronts: the rules of one label, their detection in the table, and the switch and
    teardown plans, for AmneziaWG 2.0 (one port) and AmneziaWG 3.0 (a port range). */
module Fronts {
  import opened Common
  import opened Words
  import opened Ipv4
  import opened RulesText
  import opened Detect
  import opened NatTable

  datatype Front =
    | Awg2(name: string, port: nat, backendPort: nat)
    | Awg3(name: string)

  const PORT_SPAN := "51900:51999"
  const PORT_RANGE := ":51900-51999"

  // ----- validation -----

  predicate IsLabelChar(c: char)
  {
    'a' <= c <= 'z' || IsDigit(c) || c == '_' || c == '-'
  }

  /** `^[a-z0-9][a-z0-9_-]{0,63}$`. */
  predicate IsLabel(s: string)
  {
    && 1 <= |s| <= 64
    && s[0] != '_' && s[0] != '-'
    && forall i :: 0 <= i < |s| ==> IsLabelChar(s[i])
  }

  predicate IsPort(p: int) { 1 <= p <= 65535 }

  predicate IsFront(f: Front)
  {
    IsLabel(f.name) && (f.Awg2? ==> IsPort(f.port) && IsPort(f.backendPort))
  }

  function NormalLabel(name: string): string { Lower(Strip(name)) }

  /** The front a request names; None where validation raises ValueError.  A missing or zero
      backend port means the front port. */
  function Awg2Front(name: string, port: int, backend: Option<int>): (r: Option<Front>)
    ensures r.Some? ==> IsFront(r.value)
  {
    var b := if backend.None? || backend.value == 0 then port else backend.value;
    if IsLabel(NormalLabel(name)) && IsPort(port) && IsPort(b) then Some(Awg2(NormalLabel(name), port, b)) else None
  }

  function Awg3Front(name: string): (r: Option<Front>)
    ensures r.Some? ==> IsFront(r.value)
  {
    if IsLabel(NormalLabel(name)) then Some(Awg3(NormalLabel(name))) else None
  }

  /** `name` is the label in any case, with white space around it. */
  ghost predicate Spells(name: string, lab: string)
  {
    exists core :: Padded(name, core) && Lower(core) == lab
  }

  lemma LabelIff(name: string, lab: string)
    requires IsLabel(lab)
    ensures NormalLabel(name) == lab <==> Spells(name, lab)
  {
    if NormalLabel(name) == lab {
      LabelStripped(name, Strip(name), lab);
    }
    if Spells(name, lab) {
      var core :| Padded(name, core) && Lower(core) == lab;
      LabelStripped(name, core, lab);
    }
  }

  lemma LabelStripped(name: string, core: string, lab: string)
    requires IsLabel(lab) && Lower(core) == lab
    ensures Strip(name) == core <==> Padded(name, core)
  {
    assert lab[0] == LowerChar(core[0]) && lab[|lab| - 1] == LowerChar(core[|core| - 1]);
    assert IsLabelChar(lab[0]) && IsLabelChar(lab[|lab| - 1]);
    StripIff(name, core);
  }

  /** 1 to 64 of these characters, the first one a letter or a digit. */
  ghost predicate IsLabelText(s: string)
  {
    && 1 <= |s| <= 64
    && (forall i :: 0 <= i < |s| ==> s[i] in "abcdefghijklmnopqrstuvwxyz0123456789-_")
    && s[0] in "abcdefghijklmnopqrstuvwxyz0123456789"
  }

  lemma LetterText(c: char)
    ensures c in "abcdefghijklmnopqrstuvwxyz" <==> 'a' <= c <= 'z'
  {
    var t := "abcdefghijklmnopqrstuvwxyz";
    assert forall i :: 0 <= i < 26 ==> t[i] as int == 97 + i;
    if 'a' <= c <= 'z' {
      assert t[c as int - 97] == c;
    }
  }

  lemma DigitText(c: char)
    ensures c in "0123456789" <==> IsDigit(c)
  {
    var t := "0123456789";
    assert forall i :: 0 <= i < 10 ==> t[i] as int == 48 + i;
    if IsDigit(c) {
      assert t[c as int - 48] == c;
    }
  }

  lemma CharText(c: char)
    ensures c in "abcdefghijklmnopqrstuvwxyz0123456789" <==> 'a' <= c <= 'z' || IsDigit(c)
    ensures c in "abcdefghijklmnopqrstuvwxyz0123456789-_" <==> IsLabelChar(c)
  {
    var t := "abcdefghijklmnopqrstuvwxyz" + "0123456789";
    LetterText(c);
    DigitText(c);
    assert t == "abcdefghijklmnopqrstuvwxyz0123456789";
    assert t + "-_" == "abcdefghijklmnopqrstuvwxyz0123456789-_";
    assert c in "-_" <==> c == '-' || c == '_' by {
      assert "-_"[0] == '-' && "-_"[1] == '_';
    }
  }

  lemma LabelIsText(s: string)
    ensures IsLabel(s) <==> IsLabelText(s)
  {
    forall i | 0 <= i < |s|
      ensures s[i] in "abcdefghijklmnopqrstuvwxyz0123456789-_" <==> IsLabelChar(s[i])
    {
      CharText(s[i]);
    }
    if s != [] {
      CharText(s[0]);
    }
  }

  /** Which requests are accepted, and for which front. */
  lemma Awg2Accepted(name: string, port: int, backend: Option<int>, f: Front)
    ensures Awg2Front(name, port, backend) == Some(f) <==>
            && f.Awg2? && IsLabelText(f.name) && Spells(name, f.name) && f.port == port
            && f.backendPort == (if backend in {None, Some(0)} then port else backend.value)
            && 1 <= f.port <= 65535 && 1 <= f.backendPort <= 65535
  {
    if f.Awg2? {
      LabelIsText(f.name);
      if IsLabel(f.name) {
        LabelIff(name, f.name);
      }
    }
  }

  lemma Awg3Accepted(name: string, f: Front)
    ensures Awg3Front(name) == Some(f) <==> f.Awg3? && IsLabelText(f.name) && Spells(name, f.name)
  {
    LabelIsText(f.name);
    if IsLabel(f.name) {
      LabelIff(name, f.name);
    }
  }

  // ----- rules -----

  function Tag(f: Front): string { if f.Awg2? then "az-failover:" else "az-failover-awg3:" }

  function Comment(f: Front): string { Tag(f) + f.name }

  function FrontPort(f: Front): string { if f.Awg2? then Decimal(f.port) else PORT_SPAN }

  function BackendPort(f: Front): string { if f.Awg2? then Decimal(f.backendPort) else PORT_SPAN }

  function Target(f: Front, ip: string): string
  {
    ip + (if f.Awg2? then ":" + Decimal(f.backendPort) else PORT_RANGE)
  }

  function DnatRule(f: Front, ip: string): Rule
  {
    ["PREROUTING", "-p", "udp", "--dport", FrontPort(f), "-m", "comment", "--comment", Comment(f),
     "-j", "DNAT", TO_DESTINATION, Target(f, ip)]
  }

  function MasqRule(f: Front, ip: string): Rule
  {
    ["POSTROUTING", "-p", "udp", "-d", ip, "--dport", BackendPort(f), "-m", "comment", "--comment", Comment(f),
     "-j", "MASQUERADE"]
  }

  // ----- detection -----

  predicate LineContains(ws: seq<string>, p: string)
  {
    exists i :: 0 <= i < |ws| && Contains(ws[i], p)
  }

  /** `--to-destination\s+(quad):51900-51999`; the address starts word `k + 1`. */
  predicate RangeWord(w: string)
  {
    QuadLen(w) > 0 && PORT_RANGE <= w[QuadLen(w)..]
  }

  function RangeToFrom(ws: seq<string>, lo: nat): (k: int)
    ensures k == -1 || (lo <= k && k + 1 < |ws| && RangeWord(ws[k + 1]))
    decreases |ws| - lo
  {
    if lo + 1 >= |ws| then -1
    else if EndsWith(ws[lo], TO_DESTINATION) && RangeWord(ws[lo + 1]) then lo
    else RangeToFrom(ws, lo + 1)
  }

  /** Word index of the address in one rule of the front, or -1.  The test for the quoted comment
      in the source is implied by the test for the comment. */
  function FrontSite(ws: seq<string>, f: Front): (j: int)
    ensures j == -1 || (0 <= j < |ws| && QuadLen(ws[j]) > 0)
  {
    if !LineContains(ws, "PREROUTING") || !Mentions(SeeAll(ws)) || !LineContains(ws, Comment(f)) then -1
    else if f.Awg3? then
      var k := RangeToFrom(ws, 0);
      if k == -1 then -1 else k + 1
    else
      var k := DnatToFrom(SeeAll(ws), 0);
      if k == -1 then -1 else (SeenAt(ws, k + 3); k + 3)
  }

  /** The address that one line gives. */
  function FrontRead(l: Line, f: Front): Option<string>
  {
    var j := FrontSite(l.words, f);
    if IsRule(l) && j != -1 then Some(AddressIn(l.words, j)) else None
  }

  function FrontReads(ls: seq<Line>, f: Front): (r: seq<Option<string>>)
    ensures |r| == |ls|
  {
    if ls == [] then [] else [FrontRead(ls[0], f)] + FrontReads(ls[1..], f)
  }

  lemma {:induction false} FrontReadAt(ls: seq<Line>, f: Front, i: nat)
    requires i < |ls|
    ensures FrontReads(ls, f)[i] == FrontRead(ls[i], f)
  {
    if i > 0 {
      FrontReadAt(ls[1..], f, i - 1);
    }
  }

  function FirstSome<T>(xs: seq<Option<T>>): Option<T>
  {
    if xs == [] then None else if xs[0].Some? then xs[0] else FirstSome(xs[1..])
  }

  lemma {:induction false} FirstSomeAt<T>(xs: seq<Option<T>>) returns (i: nat)
    requires FirstSome(xs).Some?
    ensures i < |xs| && xs[i] == FirstSome(xs)
  {
    if xs[0].Some? {
      i := 0;
    } else {
      var k := FirstSomeAt(xs[1..]);
      i := k + 1;
    }
  }

  lemma {:induction false} SomeIsFound<T>(xs: seq<Option<T>>, i: nat)
    requires i < |xs| && xs[i].Some?
    ensures FirstSome(xs).Some?
  {
    if i > 0 {
      SomeIsFound(xs[1..], i - 1);
    }
  }

  /** `detect_failover_destination` and `detect_awg3_destination`: the first line that gives one. */
  function FrontDestination(ls: seq<Line>, f: Front): Option<string> { FirstSome(FrontReads(ls, f)) }

  /** The status is what the first line gives that gives anything. */
  lemma {:induction false} FrontDestinationFirst(ls: seq<Line>, f: Front, i: nat)
    requires i < |ls| && FrontRead(ls[i], f).Some? && forall j :: 0 <= j < i ==> FrontRead(ls[j], f).None?
    ensures FrontDestination(ls, f) == FrontRead(ls[i], f)
  {
    if i > 0 {
      FrontDestinationFirst(ls[1..], f, i - 1);
    }
  }

  // ----- plans -----

  /** `plan_failover_switch` and `plan_awg3_switch`. */
  function SwitchPlan(ls: seq<Line>, f: Front, newIp: string): Option<seq<Argv>>
  {
    var next := ParseIpv4(newIp);
    if next.None? then None
    else
      var found := FrontDestination(ls, f);
      if found == next then Some([])
      else
        var added := [Command(APPEND, DnatRule(f, next.value)), Command(APPEND, MasqRule(f, next.value))];
        Some(if found.None? then added
             else [Command(DELETE, DnatRule(f, found.value)), Command(DELETE, MasqRule(f, found.value))] + added)
  }

  /** `plan_failover_teardown` and `plan_awg3_teardown`. */
  function TeardownPlan(ls: seq<Line>, f: Front): seq<Argv>
  {
    var found := FrontDestination(ls, f);
    if found.None? then []
    else [Command(DELETE, DnatRule(f, found.value)), Command(DELETE, MasqRule(f, found.value))]
  }
}
