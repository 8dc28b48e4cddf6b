/** `plan_destination_rewrite`: from the saved rules to `-D`/`-A` pairs. */
module DestinationPlan {
  import opened Common
  import opened Words
  import opened Ipv4
  import opened RulesText
  import opened Spelling
  import opened NatTable
  import opened Substitution

  /** A rule line as `_iter_rule_lines` yields it, white space stripped at both ends. */
  function Bare(l: Line): Line
    requires IsRule(l)
  {
    Line("", l.words, l.seps[|l.seps| - 1 := ""])
  }

  lemma {:induction false} CharsCut(ws: seq<string>, seps: seq<string>)
    requires ws != [] && |ws| == |seps|
    ensures Chars(ws, seps) == Chars(ws, seps[|ws| - 1 := ""]) + seps[|ws| - 1]
    decreases |ws|
  {
    var n := |ws| - 1;
    var cut := seps[n := ""];
    if n == 0 {
      assert Chars(ws[1..], seps[1..]) == "" && Chars(ws[1..], cut[1..]) == "";
    } else {
      assert seps[1..][n - 1 := ""] == cut[1..];
      CharsCut(ws[1..], seps[1..]);
    }
  }

  lemma {:induction false} CharsLast(ws: seq<string>, seps: seq<string>)
    requires ws != [] && |ws| == |seps| && seps[|ws| - 1] == "" && ws[|ws| - 1] != []
    ensures var n, s := |ws| - 1, Chars(ws, seps); s != [] && s[|s| - 1] == ws[n][|ws[n]| - 1]
    decreases |ws|
  {
    var tail := Chars(ws[1..], seps[1..]);
    assert Chars(ws, seps) == (ws[0] + seps[0]) + tail;
    if |ws| == 1 {
      assert tail == "";
    } else {
      var us := ws[1..];
      CharsLast(us, seps[1..]);
      assert us[|us| - 1] == ws[|ws| - 1];
    }
  }

  lemma CharsEnd(ws: seq<string>, seps: seq<string>)
    requires ws != [] && |ws| == |seps| && ws[0] != [] && ws[|ws| - 1] != []
    ensures var n, s := |ws| - 1, Chars(ws, seps[|ws| - 1 := ""]);
            && Chars(ws, seps) == s + seps[n]
            && s != [] && s[0] == ws[0][0] && s[|s| - 1] == ws[n][|ws[n]| - 1]
  {
    CharsCut(ws, seps);
    CharsLast(ws, seps[|ws| - 1 := ""]);
  }

  /** Its characters are the stripped characters of the line. */
  lemma BareIsStripped(l: Line)
    requires IsRule(l) && IsLine(l)
    ensures Bare(l).lead + Chars(Bare(l).words, Bare(l).seps) == Strip(l.lead + Chars(l.words, l.seps))
  {
    CharsEnd(l.words, l.seps);
    var n, s := |l.words| - 1, Chars(l.words, l.seps[|l.words| - 1 := ""]);
    assert IsWord(l.words[0]) && IsWord(l.words[n]);
    StripOfPadded(l.lead, s, l.seps[n]);
  }

  /** A word and then white space start with `-A` and a blank. */
  lemma StartsWith(w: string, s: string)
    requires IsWord(w) && w <= s && (|s| > |w| ==> IsSpace(s[|w|]))
    ensures "-A " <= s <==> w == "-A" && |s| > 2 && s[2] == ' '
  {
    if "-A " <= s {
      assert s[0] == '-' && s[1] == 'A' && s[2] == ' ';
      assert |w| == 2;
      assert w == s[..2];
    }
  }

  lemma StartOf(ws: seq<string>, seps: seq<string>)
    requires ws != [] && |ws| == |seps| && IsWord(ws[0]) && AllSpace(seps[0]) && (|ws| > 1 ==> seps[0] != [])
    ensures "-A " <= Chars(ws, seps[|ws| - 1 := ""]) <==> |ws| > 1 && ws[0] == "-A" && seps[0][0] == ' '
  {
    var w, s := ws[0], Chars(ws, seps[|ws| - 1 := ""]);
    if |ws| == 1 {
      assert ws[1..] == [] && seps[0 := ""][1..] == [];
      assert s == w;
    } else {
      assert s == w + seps[0] + Chars(ws[1..], seps[|ws| - 1 := ""][1..]);
      assert s[|w|] == seps[0][0];
    }
    StartsWith(w, s);
  }

  lemma StripBlank(s: string)
    requires AllSpace(s)
    ensures Strip(s) == ""
  {
    SpaceRunIs(s, "");
    assert s + "" == s;
  }

  /** The test on the words is the test on the stripped characters: they start with `-A` and a blank. */
  lemma IsRuleByChars(l: Line)
    requires IsLine(l)
    ensures IsRule(l) <==> "-A " <= Strip(l.lead + Chars(l.words, l.seps))
  {
    if l.words == [] {
      assert l.lead + Chars(l.words, l.seps) == l.lead;
      StripBlank(l.lead);
    } else {
      var n, s := |l.words| - 1, Chars(l.words, l.seps[|l.words| - 1 := ""]);
      CharsEnd(l.words, l.seps);
      assert IsWord(l.words[0]) && IsWord(l.words[n]);
      StripOfPadded(l.lead, s, l.seps[n]);
      StartOf(l.words, l.seps);
    }
  }

  function RuleLines(ls: seq<Line>): (r: seq<Line>)
    ensures forall i :: 0 <= i < |r| ==> IsRule(r[i])
  {
    if ls == [] then []
    else (if IsRule(ls[0]) then [Bare(ls[0])] else []) + RuleLines(ls[1..])
  }

  /** `_line_to_iptables_args` without the leading `-A`: the words as printed, quotes included. */
  function Args(l: Line): seq<string> { if l.words == [] then [] else l.words[1..] }

  /** The rule these arguments name. */
  function RuleOf(l: Line): Rule { Meaning(Args(l), false) }

  /** The lines are what iptables-save printed of the table, rule by rule. */
  ghost predicate SavedFrom(rs: seq<Line>, t: Table)
  {
    |rs| == |t| && forall i :: 0 <= i < |rs| ==> IsRule(rs[i]) && ReadLine(rs[i].words) == t[i]
  }

  /** Nothing in the line is printed in quotes. */
  predicate Plain(l: Line) { Unquoted(Args(l)) }

  /** Arguments without quotes name the rule the line shows. */
  lemma PlainNames(l: Line)
    requires IsRule(l) && Plain(l)
    ensures RuleOf(l) == ReadLine(l.words)
  {
    FoldedUnquoted("", Args(l));
  }

  /** How often a rule is named by the lines. */
  function Count(rs: seq<Line>, r: Rule): nat
  {
    if rs == [] then 0 else (if RuleOf(rs[0]) == r then 1 else 0) + Count(rs[1..], r)
  }

  // ----- pairing -----

  function OldLines(rs: seq<Line>, prev: string): seq<Line>
  {
    if rs == [] then []
    else (if Names(rs[0].words, prev) then [rs[0]] else []) + OldLines(rs[1..], prev)
  }

  predicate IsGood(l: Line, prev: string, next: string)
  {
    Names(l.words, next) && !Names(l.words, prev)
  }

  /** `new_by_idx`: the rewritten lines that name the new address and not the old one. */
  function Positional(rs: seq<Line>, prev: string, next: string): seq<Line>
  {
    if rs == [] then []
    else
      var l := RewriteLine(rs[0], prev, next);
      (if IsGood(l, prev, next) then [l] else []) + Positional(rs[1..], prev, next)
  }

  /** The fallback: every old line rewritten on its own. */
  function PerLine(rs: seq<Line>, prev: string, next: string): seq<Line>
  {
    if rs == [] then []
    else (if Names(rs[0].words, prev) then [RewriteLine(rs[0], prev, next)] else []) + PerLine(rs[1..], prev, next)
  }

  function NewLines(rs: seq<Line>, prev: string, next: string): seq<Line>
  {
    var news := Positional(rs, prev, next);
    if |news| == |OldLines(rs, prev)| then news else PerLine(rs, prev, next)
  }

  function PairOf(o: Line, n: Line): seq<Argv> { [Command(DELETE, Args(o)), Command(APPEND, Args(n))] }

  /** `-D` the old rule and `-A` the new one, for every pair that differs. */
  function PairCommands(olds: seq<Line>, news: seq<Line>): seq<Argv>
    requires |olds| == |news|
  {
    if olds == [] then []
    else (if olds[0] == news[0] then [] else PairOf(olds[0], news[0]))
         + PairCommands(olds[1..], news[1..])
  }

  lemma {:induction false} SameLength(rs: seq<Line>, prev: string, next: string)
    ensures |PerLine(rs, prev, next)| == |OldLines(rs, prev)|
  {
    if rs != [] {
      SameLength(rs[1..], prev, next);
    }
  }

  function Plan(t: Text, prev: string, next: string): seq<Argv>
  {
    var rs := RuleLines(t.lines);
    SameLength(rs, prev, next);
    PairCommands(OldLines(rs, prev), NewLines(rs, prev, next))
  }

  lemma {:induction false} PairCommandsSnoc(olds: seq<Line>, news: seq<Line>, k: nat)
    requires |olds| == |news| && k < |olds|
    ensures PairCommands(olds[..k + 1], news[..k + 1]) ==
            PairCommands(olds[..k], news[..k]) +
            if olds[k] == news[k] then [] else PairOf(olds[k], news[k])
    decreases k
  {
    if k == 0 {
      assert olds[..1][1..] == [] && news[..1][1..] == [];
    } else {
      assert olds[..k + 1][1..] == olds[1..][..k] && olds[..k][1..] == olds[1..][..k - 1];
      assert news[..k + 1][1..] == news[1..][..k] && news[..k][1..] == news[1..][..k - 1];
      PairCommandsSnoc(olds[1..], news[1..], k - 1);
    }
  }

  /** The loop over the pairs. */
  method BuildPlan(olds: seq<Line>, news: seq<Line>) returns (plan: seq<Argv>)
    requires |olds| == |news|
    ensures plan == PairCommands(olds, news)
  {
    plan := [];
    for i := 0 to |olds|
      invariant plan == PairCommands(olds[..i], news[..i])
    {
      PairCommandsSnoc(olds, news, i);
      if olds[i] == news[i] {
        continue;
      }
      var remove := Command(DELETE, Args(olds[i]));
      var add := Command(APPEND, Args(news[i]));
      plan := plan + [remove, add];
    }
    assert olds[..|olds|] == olds && news[..|olds|] == news;
  }

  /** `plan_destination_rewrite`. */
  method PlanDestinationRewrite(t: Text, oldIp: string, newIp: string) returns (r: Option<seq<Argv>>)
    ensures r.Some? <==> ParseIpv4(oldIp).Some? && ParseIpv4(newIp).Some? && ParseIpv4(oldIp) != ParseIpv4(newIp)
    ensures r.Some? ==> r.value == Plan(t, ParseIpv4(oldIp).value, ParseIpv4(newIp).value)
  {
    var prev, next := ParseIpv4(oldIp), ParseIpv4(newIp);
    if prev.None? || next.None? || prev == next {
      return None;
    }
    var rs := RuleLines(t.lines);
    SameLength(rs, prev.value, next.value);
    var olds := OldLines(rs, prev.value);
    var news := Positional(rs, prev.value, next.value);
    if |olds| != |news| {
      news := PerLine(rs, prev.value, next.value);
    }
    var plan := BuildPlan(olds, news);
    return Some(plan);
  }

  // ----- when the positional pairing is the per-line one -----

  /** Rules that name the new address and not the old one before anything is rewritten. */
  function Taken(rs: seq<Line>, prev: string, next: string): nat
  {
    if rs == [] then 0
    else (if IsGood(rs[0], prev, next) then 1 else 0) + Taken(rs[1..], prev, next)
  }

  /** Old-naming rules whose rewrite still names the old address or does not name the new one. */
  function Spoiled(rs: seq<Line>, prev: string, next: string): nat
  {
    if rs == [] then 0
    else (if Names(rs[0].words, prev) && !IsGood(RewriteLine(rs[0], prev, next), prev, next) then 1 else 0)
         + Spoiled(rs[1..], prev, next)
  }

  lemma {:induction false} PositionalCount(rs: seq<Line>, prev: string, next: string)
    ensures |Positional(rs, prev, next)| + Spoiled(rs, prev, next) == |OldLines(rs, prev)| + Taken(rs, prev, next)
  {
    if rs != [] {
      PositionalCount(rs[1..], prev, next);
    }
  }

  lemma {:induction false} NothingTaken(rs: seq<Line>, prev: string, next: string)
    requires Taken(rs, prev, next) == 0 && Spoiled(rs, prev, next) == 0
    ensures Positional(rs, prev, next) == PerLine(rs, prev, next)
  {
    if rs != [] {
      NothingTaken(rs[1..], prev, next);
    }
  }

  lemma {:induction false} SpoiledShows(rs: seq<Line>, prev: string, next: string)
    requires Spoiled(rs, prev, next) > 0
    ensures exists l :: l in PerLine(rs, prev, next) && !IsGood(l, prev, next)
  {
    var l := RewriteLine(rs[0], prev, next);
    if Names(rs[0].words, prev) && !IsGood(l, prev, next) {
      assert l in PerLine(rs, prev, next);
    } else {
      SpoiledShows(rs[1..], prev, next);
      var m :| m in PerLine(rs[1..], prev, next) && !IsGood(m, prev, next);
      assert m in PerLine(rs, prev, next);
    }
  }

  lemma {:induction false} PositionalGood(rs: seq<Line>, prev: string, next: string, l: Line)
    requires l in Positional(rs, prev, next)
    ensures IsGood(l, prev, next)
  {
    var m := RewriteLine(rs[0], prev, next);
    if !(IsGood(m, prev, next) && l == m) {
      assert l in Positional(rs[1..], prev, next);
      PositionalGood(rs[1..], prev, next, l);
    }
  }

  /** The lines the plan pairs with the old ones are their own rewrites, unless the number of rules
      that name only the new address equals, and is above zero, the number of old rules whose
      rewrite is not clean; and then they are not. */
  lemma PairingIsPerLine(rs: seq<Line>, prev: string, next: string)
    ensures NewLines(rs, prev, next) == PerLine(rs, prev, next) <==>
            !(Taken(rs, prev, next) == Spoiled(rs, prev, next) > 0)
  {
    PositionalCount(rs, prev, next);
    if Taken(rs, prev, next) == Spoiled(rs, prev, next) {
      if Spoiled(rs, prev, next) == 0 {
        NothingTaken(rs, prev, next);
      } else {
        SpoiledShows(rs, prev, next);
        var l :| l in PerLine(rs, prev, next) && !IsGood(l, prev, next);
        if l in Positional(rs, prev, next) {
          PositionalGood(rs, prev, next, l);
        }
      }
    }
  }

  lemma {:induction false} PerLineAt(rs: seq<Line>, prev: string, next: string, i: nat)
    requires i < |OldLines(rs, prev)| == |PerLine(rs, prev, next)|
    ensures PerLine(rs, prev, next)[i] == RewriteLine(OldLines(rs, prev)[i], prev, next)
    ensures OldLines(rs, prev)[i] in rs && Names(OldLines(rs, prev)[i].words, prev)
  {
    SameLength(rs[1..], prev, next);
    if !Names(rs[0].words, prev) {
      PerLineAt(rs[1..], prev, next, i);
    } else if i > 0 {
      PerLineAt(rs[1..], prev, next, i - 1);
    }
  }

  lemma {:induction false} PositionalRule(rs: seq<Line>, prev: string, next: string, l: Line)
    requires IsDotted(prev, 3) && IsDotted(next, 3) && forall j :: 0 <= j < |rs| ==> IsRule(rs[j])
    requires l in Positional(rs, prev, next)
    ensures IsRule(l)
  {
    RewriteKeepsRules(rs[0], prev, next);
    if l != RewriteLine(rs[0], prev, next) {
      PositionalRule(rs[1..], prev, next, l);
    }
  }

  // ----- the shape of a plan -----

  /** Commands `2i` and `2i + 1` replace one line by another. */
  predicate IsPair(plan: seq<Argv>, i: nat, o: Line, n: Line)
  {
    2 * i + 1 < |plan| && plan[2 * i] == Command(DELETE, Args(o)) && plan[2 * i + 1] == Command(APPEND, Args(n))
  }

  lemma BehindPair(a: Line, b: Line, rest: seq<Argv>, i: nat, o: Line, n: Line)
    requires IsPair(rest, i, o, n)
    ensures IsPair(PairOf(a, b) + rest, i + 1, o, n)
  {
    var all := PairOf(a, b) + rest;
    assert all[2 * i + 2] == rest[2 * i] && all[2 * i + 3] == rest[2 * i + 1];
  }

  lemma {:induction false} PairsShape(olds: seq<Line>, news: seq<Line>, i: nat) returns (j: nat)
    requires |olds| == |news| && 2 * i < |PairCommands(olds, news)|
    ensures j < |olds| && olds[j] != news[j] && IsPair(PairCommands(olds, news), i, olds[j], news[j])
    decreases |olds|
  {
    if olds[0] == news[0] {
      var k := PairsShape(olds[1..], news[1..], i);
      j := k + 1;
    } else if i == 0 {
      j := 0;
    } else {
      var os, ns := olds[1..], news[1..];
      var k := PairsShape(os, ns, i - 1);
      j := k + 1;
      BehindPair(olds[0], news[0], PairCommands(os, ns), i - 1, os[k], ns[k]);
    }
  }

  lemma PairText(plan: seq<Argv>, i: nat, o: Line, n: Line)
    requires IsPair(plan, i, o, n)
    ensures plan[2 * i] == ["iptables", "-w", "-t", "nat", "-D"] + Args(o)
    ensures plan[2 * i + 1] == ["iptables", "-w", "-t", "nat", "-A"] + Args(n)
  {
    CommandText(DELETE, Args(o));
    CommandText(APPEND, Args(n));
  }

  lemma CommandText(action: string, args: seq<string>)
    ensures Command(action, args) == ["iptables", "-w", "-t", "nat", action] + args
  {
  }

  /** A plan is a list of pairs: `-D` with the words of a saved rule that names the old address, then `-A`
      with the words of another rule. */
  lemma PlanShape(t: Text, prev: string, next: string, i: nat) returns (o: Line, n: Line)
    requires 2 * i < |Plan(t, prev, next)|
    ensures o in RuleLines(t.lines) && Names(o.words, prev) && o != n && 2 * i + 1 < |Plan(t, prev, next)|
    ensures Plan(t, prev, next)[2 * i] == ["iptables", "-w", "-t", "nat", "-D"] + Args(o)
    ensures Plan(t, prev, next)[2 * i + 1] == ["iptables", "-w", "-t", "nat", "-A"] + Args(n)
  {
    var rs := RuleLines(t.lines);
    SameLength(rs, prev, next);
    var j := PairsShape(OldLines(rs, prev), NewLines(rs, prev, next), i);
    PerLineAt(rs, prev, next, j);
    o, n := OldLines(rs, prev)[j], NewLines(rs, prev, next)[j];
    assert IsPair(Plan(t, prev, next), i, o, n);
    PairText(Plan(t, prev, next), i, o, n);
  }

  // ----- when there is nothing to do -----

  lemma {:induction false} PairsEmpty(olds: seq<Line>, news: seq<Line>)
    requires |olds| == |news|
    ensures PairCommands(olds, news) == [] <==> olds == news
  {
    if olds != [] {
      PairsEmpty(olds[1..], news[1..]);
      assert olds == [olds[0]] + olds[1..] && news == [news[0]] + news[1..];
    }
  }

  /** Some rule has the old address as a destination. */
  predicate SomeRewritten(rs: seq<Line>, prev: string, next: string)
  {
    exists i :: 0 <= i < |rs| && RewriteLine(rs[i], prev, next) != rs[i]
  }

  lemma SomeRewrittenCons(rs: seq<Line>, prev: string, next: string)
    requires rs != []
    ensures SomeRewritten(rs, prev, next) <==>
            RewriteLine(rs[0], prev, next) != rs[0] || SomeRewritten(rs[1..], prev, next)
  {
    assert forall i :: 0 < i < |rs| ==> rs[i] == rs[1..][i - 1];
    assert forall i :: 0 <= i < |rs[1..]| ==> rs[1..][i] == rs[i + 1];
  }

  lemma ConsSame(a: seq<Line>, x: Line, b: seq<Line>, y: Line)
    ensures [x] + a == [y] + b <==> x == y && a == b
  {
    if [x] + a == [y] + b {
      assert ([x] + a)[0] == x && ([y] + b)[0] == y && ([x] + a)[1..] == a && ([y] + b)[1..] == b;
    }
  }

  lemma {:induction false} PerLineSame(rs: seq<Line>, prev: string, next: string)
    ensures PerLine(rs, prev, next) == OldLines(rs, prev) <==> !SomeRewritten(rs, prev, next)
  {
    if rs != [] {
      PerLineSame(rs[1..], prev, next);
      SomeRewrittenCons(rs, prev, next);
      ConsSame(PerLine(rs[1..], prev, next), RewriteLine(rs[0], prev, next), OldLines(rs[1..], prev), rs[0]);
      PerLineCons(rs, prev, next);
    }
  }

  lemma PerLineCons(rs: seq<Line>, prev: string, next: string)
    requires rs != []
    ensures var p, o := PerLine(rs[1..], prev, next), OldLines(rs[1..], prev);
            if Names(rs[0].words, prev)
            then PerLine(rs, prev, next) == [RewriteLine(rs[0], prev, next)] + p && OldLines(rs, prev) == [rs[0]] + o
            else PerLine(rs, prev, next) == p && OldLines(rs, prev) == o && RewriteLine(rs[0], prev, next) == rs[0]
  {
  }

  lemma {:induction false} OldNames(rs: seq<Line>, prev: string, l: Line)
    requires l in OldLines(rs, prev)
    ensures Names(l.words, prev)
  {
    if !(Names(rs[0].words, prev) && l == rs[0]) {
      OldNames(rs[1..], prev, l);
    }
  }

  lemma MispairedDiffer(rs: seq<Line>, prev: string, next: string)
    requires Positional(rs, prev, next) == OldLines(rs, prev)
    ensures OldLines(rs, prev) == []
  {
    if OldLines(rs, prev) != [] {
      var l := OldLines(rs, prev)[0];
      PositionalGood(rs, prev, next, l);
      OldNames(rs, prev, l);
    }
  }

  /** The plan is empty exactly when no rule has the old address as a destination, unless rules that name
      it elsewhere are paired with as many rules that name the new one. */
  lemma PlanEmptyIff(t: Text, prev: string, next: string)
    ensures var rs := RuleLines(t.lines);
            Plan(t, prev, next) == [] <==>
            !SomeRewritten(rs, prev, next) && !(Taken(rs, prev, next) == Spoiled(rs, prev, next) > 0)
  {
    var rs := RuleLines(t.lines);
    SameLength(rs, prev, next);
    PairsEmpty(OldLines(rs, prev), NewLines(rs, prev, next));
    PerLineSame(rs, prev, next);
    PairingIsPerLine(rs, prev, next);
    PositionalCount(rs, prev, next);
    if |Positional(rs, prev, next)| == |OldLines(rs, prev)| && Positional(rs, prev, next) == OldLines(rs, prev) {
      MispairedDiffer(rs, prev, next);
      NothingSpoiled(rs, prev, next);
    }
  }

  lemma {:induction false} NothingSpoiled(rs: seq<Line>, prev: string, next: string)
    requires OldLines(rs, prev) == []
    ensures Spoiled(rs, prev, next) == 0
  {
    if rs != [] {
      NothingSpoiled(rs[1..], prev, next);
    }
  }
}
