/** A failover front in the table whose DESTINATION is changed. */
module SharedTable {
  import opened Words
  import opened Ipv4
  import opened RulesText
  import opened Spelling
  import opened NatTable
  import opened NatRuns
  import opened Fronts
  import opened FrontRules
  import opened DestinationPlan
  import opened DestinationRun

  /** The line of a front's DNAT rule is rewritten when the front forwards to the old address. */
  lemma FrontLineChanges(l: Line, f: Front, prev: string, next: string, st: Style)
    requires IsRule(l) && l.words == ShownDnat(f, prev, st)
    requires IsDestination(prev) && IsDestination(next) && prev != next
    ensures Names(l.words, prev) && RewriteLine(l, prev, next) != l
  {
    var i := 13 + Shift(st);
    ShownEnd(f, prev, st);
    assert EndsWith(l.words[i - 1], TO_DESTINATION) by {
      assert TO_DESTINATION[0..] == TO_DESTINATION;
    }
    assert IsSite(l.words, i, prev);
    SiteIsNamed(l.words, i, prev);
    GuardNeverSuppresses(l, prev, next);
    RewriteAt(l.words, prev, next, i);
    SubstAddr(l.words[i], prev, next);
  }

  lemma FrontLineQuoted(l: Line, f: Front, ip: string, st: Style)
    requires l.words == ShownDnat(f, ip, st) && st.quoted
    ensures !Plain(l)
  {
    var i := 9 + Shift(st);
    ShownWords(f, ip, st, i);
    assert l.words[i][0] == '"';
    assert Args(l)[i - 1] == l.words[i];
    assert HasQuote()(Args(l)[i - 1]);
  }

  /** A line that is rewritten is a changed pair of the plan, however the lines were paired. */
  lemma RewrittenIsChanged(rs: seq<Line>, prev: string, next: string, i: nat)
    requires i < |rs| && Names(rs[i].words, prev) && RewriteLine(rs[i], prev, next) != rs[i] && !Plain(rs[i])
    requires |OldLines(rs, prev)| == |NewLines(rs, prev, next)|
    ensures !ChangesPlain(OldLines(rs, prev), NewLines(rs, prev, next))
  {
    var j := PerLinePlace(rs, prev, next, i);
    if |Positional(rs, prev, next)| == |OldLines(rs, prev)| {
      PositionalGood(rs, prev, next, NewLines(rs, prev, next)[j]);
    }
    assert OldLines(rs, prev)[j] != NewLines(rs, prev, next)[j];
  }

  /** While a front forwards to the current DESTINATION and its comment is printed in quotes, no change
      of the DESTINATION goes through, whatever the environment does. */
  lemma QuotedFrontBlocks(t: Text, table: Table, f: Front, prev: string, next: string, i: nat, fs: Faults)
    requires IsDestination(prev) && IsDestination(next) && prev != next
    requires SavedFrom(RuleLines(t.lines), table) && Quoteless(table) && i < |table| && table[i] == DnatRule(f, prev)
    requires !Plain(RuleLines(t.lines)[i])
    ensures !Runs(table, Plan(t, prev, next))
    ensures Apply(World(table, 0, []), Plan(t, prev, next), 0, fs).outcome != Applied
  {
    var rs, p := RuleLines(t.lines), Plan(t, prev, next);
    var st := SavedDnat(rs[i].words, f, prev);
    FrontLineChanges(rs[i], f, prev, next, st);
    SameLength(rs, prev, next);
    RewrittenIsChanged(rs, prev, next, i);
    PlanFindsItsRules(t, table, prev, next);
    if Apply(World(table, 0, []), p, 0, fs).outcome == Applied {
      assert p[..0] == [];
      AppliedIsAfter(table, p, 0, World(table, 0, []), fs);
    }
  }

  /** Such a text: one front and nothing else. */
  function FrontText(f: Front, ip: string): Text
  {
    var ws := ShownDnat(f, ip, Style(false, true));
    Text([Line("", ws, [" ", " ", " ", " ", " ", " ", " ", " ", " ", " ", " ", " ", " ", ""])], true)
  }

  lemma WordsQuoteless(f: Front, ip: string)
    requires IsFront(f) && AllAddr(ip)
    ensures '"' !in FrontPort(f) && '"' !in Comment(f) && '"' !in Target(f, ip)
  {
    LabelHasNo(f, '"');
    if f.Awg2? {
      DigitsHaveNo(f.port, '"');
      DigitsHaveNo(f.backendPort, '"');
    }
    assert '"' !in ip;
  }

  lemma FrontQuoteless(f: Front, ip: string)
    requires IsFront(f) && AllAddr(ip)
    ensures Unquoted(DnatRule(f, ip))
  {
    var r := DnatRule(f, ip);
    WordsQuoteless(f, ip);
    forall i | 0 <= i < |r|
      ensures '"' !in r[i]
    {
      assert i == 4 || i == 8 || i == 12 ||
             r[i] in ["PREROUTING", "-p", "udp", "--dport", "-m", "comment", "--comment", "-j", "DNAT", TO_DESTINATION];
    }
  }

  /** The input that shows it: the `-D` names a comment with quotes, which is not in the table. */
  lemma QuotedFrontWitness(f: Front, prev: string, next: string)
    requires IsFront(f) && IsDestination(prev) && IsDestination(next) && prev != next
    ensures SavedFrom(RuleLines(FrontText(f, prev).lines), [DnatRule(f, prev)])
    ensures !Runs([DnatRule(f, prev)], Plan(FrontText(f, prev), prev, next))
  {
    var t, st := FrontText(f, prev), Style(false, true);
    var l := t.lines[0];
    ShownIsSaved(f, prev, st);
    assert RuleLines(t.lines) == [Bare(l)];
    DottedChars(prev, 3);
    FrontQuoteless(f, prev);
    FrontLineQuoted(Bare(l), f, prev, st);
    QuotedFrontBlocks(t, [DnatRule(f, prev)], f, prev, next, 0, n => NoFault);
  }
}
