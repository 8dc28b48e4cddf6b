/** What the status reports after a DESTINATION plan went through. */
module DestinationStatus {
  import opened Common
  import opened Ipv4
  import opened RulesText
  import opened Detect
  import opened NatTable
  import opened NatRuns
  import opened DestinationPlan
  import opened DestinationRun

  /** The words of the rule lines, and what `print_` gives for the rules of a table. */
  function RuleWords(ls: seq<Line>): seq<seq<string>>
  {
    if ls == [] then [] else (if IsRule(ls[0]) then [ls[0].words] else []) + RuleWords(ls[1..])
  }

  function PrintedAll(print_: Rule -> seq<string>, t: Table): seq<seq<string>>
  {
    if t == [] then [] else [print_(t[0])] + PrintedAll(print_, t[1..])
  }

  /** The lines show the rules of the table, each as often as it is there, in any order. */
  predicate ListedBy(print_: Rule -> seq<string>, ls: seq<Line>, t: Table)
  {
    multiset(RuleWords(ls)) == multiset(PrintedAll(print_, t))
  }

  lemma {:induction false} WordsOfLine(ls: seq<Line>, k: nat)
    requires k < |ls| && IsRule(ls[k])
    ensures ls[k].words in RuleWords(ls)
  {
    if k > 0 {
      WordsOfLine(ls[1..], k - 1);
    }
  }

  lemma {:induction false} LineOfWords(ls: seq<Line>, ws: seq<string>) returns (k: nat)
    requires ws in RuleWords(ls)
    ensures k < |ls| && IsRule(ls[k]) && ls[k].words == ws
  {
    if IsRule(ls[0]) && ls[0].words == ws {
      k := 0;
    } else {
      k := LineOfWords(ls[1..], ws);
      k := k + 1;
    }
  }

  lemma {:induction false} PrintOfRule(print_: Rule -> seq<string>, t: Table, r: Rule)
    requires r in t
    ensures print_(r) in PrintedAll(print_, t)
  {
    if t[0] != r {
      PrintOfRule(print_, t[1..], r);
    }
  }

  lemma {:induction false} RuleOfPrint(print_: Rule -> seq<string>, t: Table, ws: seq<string>) returns (r: Rule)
    requires ws in PrintedAll(print_, t)
    ensures r in t && print_(r) == ws
  {
    if print_(t[0]) == ws {
      r := t[0];
    } else {
      r := RuleOfPrint(print_, t[1..], ws);
    }
  }

  /** Every rule has a line, and every rule line a rule. */
  lemma LineOfRule(print_: Rule -> seq<string>, ls: seq<Line>, t: Table, r: Rule) returns (k: nat)
    requires ListedBy(print_, ls, t) && r in t
    ensures k < |ls| && IsRule(ls[k]) && ls[k].words == print_(r)
  {
    PrintOfRule(print_, t, r);
    assert print_(r) in multiset(RuleWords(ls));
    k := LineOfWords(ls, print_(r));
  }

  lemma RuleOfLine(print_: Rule -> seq<string>, ls: seq<Line>, t: Table, k: nat) returns (r: Rule)
    requires ListedBy(print_, ls, t) && k < |ls| && IsRule(ls[k])
    ensures r in t && ls[k].words == print_(r)
  {
    WordsOfLine(ls, k);
    assert ls[k].words in multiset(PrintedAll(print_, t));
    r := RuleOfPrint(print_, t, ls[k].words);
  }

  /** What proxy.sh sets up: every DNAT rule on a known port reads `ip` exactly, and there is one. */
  ghost predicate AllForward(rs: seq<Line>, ip: string)
  {
    && (exists i :: 0 <= i < |rs| && RuleDnat(rs[i]) != -1)
    && (forall i :: 0 <= i < |rs| && RuleDnat(rs[i]) != -1 ==> IsSite(rs[i].words, RuleDnat(rs[i]), ip))
  }

  /** The saved lines, and the replaced ones once their rules are in the table, are printed by `print`. */
  ghost predicate PrintsAlike(print_: Rule -> seq<string>, rs: seq<Line>, t: Table, prev: string, next: string)
    requires |rs| == |t|
  {
    forall i :: 0 <= i < |rs| ==>
      var l := RewriteLine(rs[i], prev, next); l.words == print_(if l == rs[i] then t[i] else RuleOf(l))
  }

  lemma SameWordsSameDnat(l: Line, m: Line)
    requires IsRule(l) && IsRule(m) && l.words == m.words
    ensures RuleDnat(l) == RuleDnat(m)
  {
  }

  lemma {:induction false} SomeDnat(rs: seq<Read>, lo: nat, i: nat)
    requires lo <= i < |rs| && rs[i].dnat != -1
    ensures FirstDnat(rs, lo) != -1
    decreases i - lo
  {
    if rs[lo].dnat == -1 {
      SomeDnat(rs, lo + 1, i);
    }
  }

  /** A line of the new listing is the rewrite of a saved line. */
  lemma NewLineIsRewrite(rs: seq<Line>, t: Table, prev: string, next: string, print_: Rule -> seq<string>, r: Rule)
    returns (i: nat)
    requires |rs| == |t| && PrintsAlike(print_, rs, t, prev, next) && r in Rewritten(rs, t, prev, next)
    ensures i < |rs| && print_(r) == RewriteLine(rs[i], prev, next).words
  {
    var k :| 0 <= k < |Rewritten(rs, t, prev, next)| && Rewritten(rs, t, prev, next)[k] == r;
    i := k;
  }

  /** A rule line of the new table reads the new address if it is read at all. */
  lemma NewLineReads(l: Line, prev: string, next: string, m: Line)
    requires IsDestination(prev) && IsDestination(next) && IsRule(l) && IsRule(m)
    requires RuleDnat(l) != -1 ==> IsSite(l.words, RuleDnat(l), prev)
    requires m.words == RewriteLine(l, prev, next).words
    ensures RuleDnat(m) == RuleDnat(l)
    ensures RuleDnat(m) != -1 ==> DnatAddress(m) == next
  {
    RewriteKeepsRules(l, prev, next);
    SameWordsSameDnat(RewriteLine(l, prev, next), m);
    RuleStays(l, prev, next);
    RuleAddressAfter(l, prev, next);
  }

  lemma SameRules(a: Table, b: Table)
    requires multiset(a) == multiset(b)
    ensures forall r :: r in a <==> r in b
  {
    assert forall r :: r in a <==> r in multiset(a);
    assert forall r :: r in b <==> r in multiset(b);
  }

  /** A line of the new listing that shows the rewrite of a line that is read. */
  lemma NewLineFor(rs: seq<Line>, table: Table, prev: string, next: string, print_: Rule -> seq<string>,
      ls: seq<Line>, t: Table, i: nat)
    returns (k: nat)
    requires i < |rs| == |table| && PrintsAlike(print_, rs, table, prev, next)
    requires ListedBy(print_, ls, t) && multiset(t) == multiset(Rewritten(rs, table, prev, next))
    ensures k < |ls| && IsRule(ls[k]) && ls[k].words == RewriteLine(rs[i], prev, next).words
  {
    SameRules(t, Rewritten(rs, table, prev, next));
    var r := Rewritten(rs, table, prev, next)[i];
    k := LineOfRule(print_, ls, t, r);
  }

  lemma LineIsFound(ls: seq<Line>, k: nat)
    requires k < |ls| && RuleDnat(ls[k]) != -1
    ensures DnatLine(ls) != -1
  {
    ReadAt(ls, k);
    SomeDnat(Reads(ls), 0, k);
  }

  /** Some line of the new listing is read. */
  lemma NewLineFound(rs: seq<Line>, table: Table, prev: string, next: string, print_: Rule -> seq<string>,
      ls: seq<Line>, t: Table)
    requires IsDestination(prev) && IsDestination(next)
    requires |rs| == |table| && forall i :: 0 <= i < |rs| ==> IsRule(rs[i])
    requires PrintsAlike(print_, rs, table, prev, next) && AllForward(rs, prev)
    requires ListedBy(print_, ls, t) && multiset(t) == multiset(Rewritten(rs, table, prev, next))
    ensures DnatLine(ls) != -1
  {
    var i :| 0 <= i < |rs| && RuleDnat(rs[i]) != -1;
    var k := NewLineFor(rs, table, prev, next, print_, ls, t, i);
    NewLineReads(rs[i], prev, next, ls[k]);
    LineIsFound(ls, k);
  }

  /** Every line of the new listing that is read reads the new address. */
  lemma NewLinesRead(rs: seq<Line>, table: Table, prev: string, next: string, print_: Rule -> seq<string>,
      ls: seq<Line>, t: Table, k: nat)
    requires IsDestination(prev) && IsDestination(next)
    requires |rs| == |table| && forall i :: 0 <= i < |rs| ==> IsRule(rs[i])
    requires PrintsAlike(print_, rs, table, prev, next) && AllForward(rs, prev)
    requires ListedBy(print_, ls, t) && multiset(t) == multiset(Rewritten(rs, table, prev, next))
    requires k < |ls| && RuleDnat(ls[k]) != -1
    ensures DnatAddress(ls[k]) == next
  {
    SameRules(t, Rewritten(rs, table, prev, next));
    var r := RuleOfLine(print_, ls, t, k);
    var j := NewLineIsRewrite(rs, table, prev, next, print_, r);
    NewLineReads(rs[j], prev, next, ls[k]);
  }

  /** What the status needs: proxy.sh's rules, lines paired with their own rewrites, and a way of
      printing that knows the replaced rules. */
  ghost predicate StatusReady(t: Text, table: Table, prev: string, next: string, print_: Rule -> seq<string>)
  {
    var rs := RuleLines(t.lines);
    && SavedFrom(rs, table) && PrintsAlike(print_, rs, table, prev, next)
    && AllForward(rs, prev) && !(Taken(rs, prev, next) == Spoiled(rs, prev, next) > 0)
  }

  lemma ReadyRewrites(t: Text, table: Table, prev: string, next: string, print_: Rule -> seq<string>)
    requires IsDestination(prev) && IsDestination(next) && PlanIsPlain(t, prev, next)
    requires StatusReady(t, table, prev, next, print_)
    ensures |RuleLines(t.lines)| == |table|
    ensures multiset(After(table, Plan(t, prev, next))) == multiset(Rewritten(RuleLines(t.lines), table, prev, next))
  {
    PlanRewritesTable(t, table, prev, next);
  }

  /** `proxy_destination` end to end: when the plan goes through, the status read from any listing of
      the resulting table reports the new address. */
  lemma StatusAfterChange(t: Text, table: Table, prev: string, next: string, print_: Rule -> seq<string>, ls: seq<Line>)
    requires IsDestination(prev) && IsDestination(next) && PlanIsPlain(t, prev, next)
    requires StatusReady(t, table, prev, next, print_)
    requires ListedBy(print_, ls, After(table, Plan(t, prev, next)))
    ensures Found(ls) == Some(next)
  {
    ReadyRewrites(t, table, prev, next, print_);
    var rs, after := RuleLines(t.lines), After(table, Plan(t, prev, next));
    NewLineFound(rs, table, prev, next, print_, ls, after);
    NewLinesRead(rs, table, prev, next, print_, ls, after, DnatLine(ls));
  }
}
