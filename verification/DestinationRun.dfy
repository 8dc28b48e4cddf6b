/** Running a DESTINATION plan on the table its text was saved from. */
module DestinationRun {
  import opened Words
  import opened Ipv4
  import opened RulesText
  import opened Spelling
  import opened NatTable
  import opened NatRuns
  import opened NatIsolation
  import opened DestinationPlan

  // ----- running the plan on the table it was computed from -----

  lemma {:induction false} RunsCat(t: Table, a: seq<Argv>, b: seq<Argv>)
    ensures After(t, a + b) == After(After(t, a), b)
    ensures Runs(t, a + b) <==> Runs(t, a) && Runs(After(t, a), b)
    decreases |b|
  {
    if b == [] {
      assert a + b == a;
    } else {
      var c := b[..|b| - 1];
      assert (a + b)[..|a + b| - 1] == a + c;
      RunsCat(t, a, c);
    }
  }

  lemma PairRuns(t: Table, o: Line, n: Line)
    ensures Runs(t, PairOf(o, n)) <==> RuleOf(o) in t
    ensures RuleOf(o) in t ==>
              multiset(After(t, PairOf(o, n))) == multiset(t) - multiset{RuleOf(o)} + multiset{RuleOf(n)}
  {
    var p := PairOf(o, n);
    CommandParsed(DELETE, Args(o));
    CommandParsed(APPEND, Args(n));
    RunsStep(t, p, 0);
    RunsStep(t, p, 1);
    assert p[..2] == p && p[..0] == [];
    RunChanges(t, Delete(RuleOf(o)));
  }

  /** Every line's rule is in the table, as often as the lines name it. */
  ghost predicate Fits(rs: seq<Line>, t: Table)
  {
    forall r :: Count(rs, r) <= multiset(t)[r]
  }

  lemma PairStep(t: Table, olds: seq<Line>, n: Line)
    requires olds != [] && Fits(olds, t)
    ensures var p := PairOf(olds[0], n);
            && Runs(t, p)
            && Fits(olds[1..], After(t, p))
            && RuleOf(olds[0]) in t
  {
    var o := RuleOf(olds[0]);
    assert 1 <= Count(olds, o) <= multiset(t)[o];
    PairRuns(t, olds[0], n);
    forall r
      ensures Count(olds[1..], r) <= multiset(After(t, PairOf(olds[0], n)))[r]
    {
      assert Count(olds, r) <= multiset(t)[r];
    }
  }

  /** The old lines of the pairs that differ. */
  function ChangedOld(olds: seq<Line>, news: seq<Line>): seq<Line>
    requires |olds| == |news|
  {
    if olds == [] then []
    else (if olds[0] == news[0] then [] else [olds[0]]) + ChangedOld(olds[1..], news[1..])
  }

  lemma PairBalance(t: Table, o: Line, n: Line, r: Rule)
    requires RuleOf(o) in t
    ensures multiset(After(t, PairOf(o, n)))[r] == multiset(t)[r] - Unit(RuleOf(o) == r) + Unit(RuleOf(n) == r)
  {
    PairRuns(t, o, n);
    assert RuleOf(o) in multiset(t);
  }

  lemma ChangedHead(olds: seq<Line>, news: seq<Line>)
    requires |olds| == |news| > 0
    ensures var os, ns := olds[1..], news[1..];
            if olds[0] == news[0]
            then ChangedOld(olds, news) == ChangedOld(os, ns) && PairCommands(olds, news) == PairCommands(os, ns)
            else && ChangedOld(olds, news) == [olds[0]] + ChangedOld(os, ns)
                 && PairCommands(olds, news) == PairOf(olds[0], news[0]) + PairCommands(os, ns)
  {
  }

  /** Any pairs, if the old rules of those that differ are all in the table. */
  lemma {:induction false} PairsRun(t: Table, olds: seq<Line>, news: seq<Line>, r: Rule)
    requires |olds| == |news| && Fits(ChangedOld(olds, news), t)
    ensures Runs(t, PairCommands(olds, news))
    ensures multiset(After(t, PairCommands(olds, news)))[r] == multiset(t)[r] - Count(olds, r) + Count(news, r)
    decreases |olds|
  {
    if olds != [] {
      var os, ns := olds[1..], news[1..];
      ChangedHead(olds, news);
      if olds[0] == news[0] {
        PairsRun(t, os, ns, r);
      } else {
        var p, changed := PairOf(olds[0], news[0]), ChangedOld(olds, news);
        assert changed[1..] == ChangedOld(os, ns);
        PairStep(t, changed, news[0]);
        PairBalance(t, olds[0], news[0], r);
        PairsRun(After(t, p), os, ns, r);
        RunsCat(t, p, PairCommands(os, ns));
      }
    }
  }

  // ----- lines and rules of the table -----

  /** How many lines have property `p`. */
  function Hits(rs: seq<Line>, p: Line -> bool): nat
  {
    if rs == [] then 0 else (if p(rs[0]) then 1 else 0) + Hits(rs[1..], p)
  }

  lemma HitsCons(l: Line, present: bool, rs: seq<Line>, p: Line -> bool)
    ensures Hits((if present then [l] else []) + rs, p) == Hits(rs, p) + if present && p(l) then 1 else 0
  {
    if present {
      assert ([l] + rs)[1..] == rs;
    } else {
      assert [] + rs == rs;
    }
  }

  lemma {:induction false} HitsInTable(rs: seq<Line>, t: Table, p: Line -> bool, r: Rule)
    requires |rs| == |t| && forall i :: 0 <= i < |rs| && p(rs[i]) ==> t[i] == r
    ensures Hits(rs, p) <= multiset(t)[r]
  {
    if rs != [] {
      HitsInTable(rs[1..], t[1..], p, r);
      assert t == [t[0]] + t[1..];
    }
  }

  lemma {:induction false} HitsOld(rs: seq<Line>, prev: string, p: Line -> bool)
    ensures Hits(OldLines(rs, prev), p) <= Hits(rs, p)
  {
    if rs != [] {
      HitsOld(rs[1..], prev, p);
      HitsCons(rs[0], Names(rs[0].words, prev), OldLines(rs[1..], prev), p);
    }
  }

  /** Lines that name the rule and have no quotes. */
  function PlainFor(r: Rule): Line -> bool { (l: Line) => Plain(l) && RuleOf(l) == r }

  lemma PlainInTable(rs: seq<Line>, t: Table, r: Rule)
    requires SavedFrom(rs, t)
    ensures Hits(rs, PlainFor(r)) <= multiset(t)[r]
  {
    forall i | 0 <= i < |rs| && PlainFor(r)(rs[i])
      ensures t[i] == r
    {
      PlainNames(rs[i]);
    }
    HitsInTable(rs, t, PlainFor(r), r);
  }

  /** Nothing that the pairs change is printed in quotes. */
  ghost predicate ChangesPlain(olds: seq<Line>, news: seq<Line>)
    requires |olds| == |news|
  {
    forall i :: 0 <= i < |olds| && olds[i] != news[i] ==> Plain(olds[i])
  }

  lemma {:induction false} ChangedInOlds(olds: seq<Line>, news: seq<Line>, r: Rule)
    requires |olds| == |news| && ChangesPlain(olds, news)
    ensures Count(ChangedOld(olds, news), r) <= Hits(olds, PlainFor(r))
    decreases |olds|
  {
    if olds != [] {
      ChangedInOlds(olds[1..], news[1..], r);
      var changed := ChangedOld(olds[1..], news[1..]);
      if olds[0] == news[0] {
        assert [] + changed == changed;
      } else {
        assert ([olds[0]] + changed)[1..] == changed;
      }
    }
  }

  /** The pairs of a plan, however the lines were paired. */
  lemma PlanRuns(rs: seq<Line>, t: Table, prev: string, next: string)
    requires SavedFrom(rs, t)
    ensures |OldLines(rs, prev)| == |NewLines(rs, prev, next)|
    ensures var olds, news := OldLines(rs, prev), NewLines(rs, prev, next);
            ChangesPlain(olds, news) ==>
              && Runs(t, PairCommands(olds, news))
              && forall r :: multiset(After(t, PairCommands(olds, news)))[r] ==
                             multiset(t)[r] - Count(olds, r) + Count(news, r)
  {
    SameLength(rs, prev, next);
    var olds, news := OldLines(rs, prev), NewLines(rs, prev, next);
    if ChangesPlain(olds, news) {
      forall r
        ensures Count(ChangedOld(olds, news), r) <= multiset(t)[r]
      {
        ChangedInOlds(olds, news, r);
        HitsOld(rs, prev, PlainFor(r));
        PlainInTable(rs, t, r);
      }
      PairsRun(t, olds, news, []);
      forall r
        ensures multiset(After(t, PairCommands(olds, news)))[r] == multiset(t)[r] - Count(olds, r) + Count(news, r)
      {
        PairsRun(t, olds, news, r);
      }
    }
  }

  // ----- a rule printed in quotes stops the plan -----

  /** A line names an address exactly if the rule that its arguments name does. */
  lemma RuleNames(l: Line, ip: string)
    requires IsRule(l) && IsDotted(ip, 3)
    ensures Names(RuleOf(l), ip) <==> Names(l.words, ip)
  {
    AddressBlind(ip);
    AnyMeant(Args(l), false, Naming(ip));
    NamesAny(RuleOf(l), ip);
    NamesAny(l.words, ip);
    assert l.words == [l.words[0]] + Args(l);
    AnyCons(l.words[0], Args(l), Naming(ip));
    LiteralUnnamed("-A", ip);
  }

  function Naming(ip: string): string -> bool { (w: string) => WordNames(w, ip) }

  lemma NamesAny(ws: seq<string>, ip: string)
    ensures Names(ws, ip) <==> Any(ws, Naming(ip))
  {
    if Names(ws, ip) {
      var i :| 0 <= i < |ws| && WordNames(ws[i], ip);
      assert Naming(ip)(ws[i]);
    }
    if Any(ws, Naming(ip)) {
      var i :| 0 <= i < |ws| && Naming(ip)(ws[i]);
      assert WordNames(ws[i], ip);
    }
  }

  lemma LiteralUnnamed(w: string, ip: string)
    requires IsDotted(ip, 3) && forall i :: 0 <= i < |w| ==> !IsDigit(w[i])
    ensures !WordNames(w, ip)
  {
    DottedChars(ip, 3);
    forall p | 0 <= p <= |w|
      ensures !NameAt(w, p, ip)
    {
      if p + |ip| <= |w| {
        assert w[p] == w[p..p + |ip|][0];
      }
    }
  }

  lemma {:induction false} DottedLength(s: string, k: nat)
    requires IsDotted(s, k)
    ensures |s| >= 2 * k + 1
  {
    if k > 0 {
      DottedLength(s[DigitRun(s) + 1..], k - 1);
    }
  }

  /** The mask does not take part in an address. */
  lemma NamedBeforeMask(w: string, ip: string, p: nat)
    requires IsDotted(ip, 3) && EndsWith(w, "/32") && NameAt(w, p, ip)
    ensures p + |ip| <= |w| - 3
  {
    var n := |w| - 3;
    DottedChars(ip, 3);
    DottedLength(ip, 3);
    assert w[n] == w[n..][0];
    forall j | p <= j < p + |ip|
      ensures IsAddrChar(w[j])
    {
      assert w[p..p + |ip|][j - p] == w[j];
    }
  }

  lemma NamedInCut(w: string, n: nat, ip: string, p: nat)
    requires n <= |w| && p + |ip| <= n && (n < |w| ==> !IsDigit(w[n]))
    ensures NameAt(w[..n], p, ip) <==> NameAt(w, p, ip)
  {
    assert w[..n][p..p + |ip|] == w[p..p + |ip|];
  }

  lemma MaskUnnamed(w: string, ip: string)
    requires IsDotted(ip, 3) && EndsWith(w, "/32")
    ensures WordNames(w[..|w| - 3], ip) <==> WordNames(w, ip)
  {
    var n := |w| - 3;
    assert w[n] == w[n..][0] == '/';
    if WordNames(w, ip) {
      var p :| 0 <= p <= |w| && NameAt(w, p, ip);
      NamedBeforeMask(w, ip, p);
      NamedInCut(w, n, ip, p);
    }
    if WordNames(w[..n], ip) {
      var p :| 0 <= p <= n && NameAt(w[..n], p, ip);
      NamedInCut(w, n, ip, p);
    }
  }

  lemma AddressBlind(ip: string)
    requires IsDotted(ip, 3)
    ensures Blind(Naming(ip), false)
  {
    LiteralUnnamed("-m", ip);
    forall prev, w
      ensures Naming(ip)(Meant(prev, w, false)) == Naming(ip)(w)
    {
      if prev == "-d" && EndsWith(w, "/32") {
        MaskUnnamed(w, ip);
      }
    }
  }

  /** No rule of the table has a double quote and names `ip`. */
  ghost predicate NoneQuoted(t: Table, ip: string)
  {
    forall r :: r in t ==> Unquoted(r) || !Names(r, ip)
  }

  /** A pair whose old line is plain adds no such rule. */
  ghost predicate AddsNone(o: Line, n: Line, ip: string)
  {
    Plain(o) ==> Unquoted(RuleOf(n)) || !Names(RuleOf(n), ip)
  }

  /** One pair that runs: its old line is plain, and the table still has no such rule. */
  lemma PairIsPlain(t: Table, o: Line, n: Line, prev: string)
    requires IsDotted(prev, 3) && NoneQuoted(t, prev) && IsRule(o) && Names(o.words, prev)
    requires AddsNone(o, n, prev) && Runs(t, PairOf(o, n))
    ensures Plain(o) && NoneQuoted(After(t, PairOf(o, n)), prev)
  {
    PairRuns(t, o, n);
    RuleNames(o, prev);
    QuotesMeant(Args(o));
    var u := After(t, PairOf(o, n));
    forall r | r in u
      ensures Unquoted(r) || !Names(r, prev)
    {
      assert r in multiset(u);
      assert r in multiset(t) || r == RuleOf(n);
    }
  }

  /** What every pair that runs shows of its old line and keeps of the table. */
  lemma {:induction false} PairsShow(t: Table, olds: seq<Line>, news: seq<Line>,
      inv: Table -> bool, ok: (Line, Line) -> bool, plain: Line -> bool)
    requires |olds| == |news| && inv(t) && Runs(t, PairCommands(olds, news))
    requires forall i :: 0 <= i < |olds| ==> ok(olds[i], news[i])
    requires forall u, o, n {:trigger Runs(u, PairOf(o, n))} ::
               inv(u) && ok(o, n) && Runs(u, PairOf(o, n)) ==> plain(o) && inv(After(u, PairOf(o, n)))
    ensures forall i :: 0 <= i < |olds| && olds[i] != news[i] ==> plain(olds[i])
    decreases |olds|
  {
    if olds != [] {
      var os, ns := olds[1..], news[1..];
      PairsSplit(t, olds, news);
      var u := if olds[0] == news[0] then t else After(t, PairOf(olds[0], news[0]));
      PairsShow(u, os, ns, inv, ok, plain);
      assert forall i :: 0 < i < |olds| ==> olds[i] == os[i - 1] && news[i] == ns[i - 1];
    }
  }

  lemma PairsSplit(t: Table, olds: seq<Line>, news: seq<Line>)
    requires |olds| == |news| > 0 && Runs(t, PairCommands(olds, news))
    ensures var p, rest := PairOf(olds[0], news[0]), PairCommands(olds[1..], news[1..]);
            if olds[0] == news[0] then Runs(t, rest) else Runs(t, p) && Runs(After(t, p), rest)
  {
    var p, rest := PairOf(olds[0], news[0]), PairCommands(olds[1..], news[1..]);
    if olds[0] == news[0] {
      assert PairCommands(olds, news) == [] + rest == rest;
    } else {
      assert PairCommands(olds, news) == p + rest;
      RunsCat(t, p, rest);
    }
  }

  ghost predicate PairOk(o: Line, n: Line, prev: string)
  {
    IsRule(o) && Names(o.words, prev) && AddsNone(o, n, prev)
  }

  lemma QuotedStops(t: Table, olds: seq<Line>, news: seq<Line>, prev: string)
    requires |olds| == |news| && IsDotted(prev, 3) && NoneQuoted(t, prev) && Runs(t, PairCommands(olds, news))
    requires forall i :: 0 <= i < |olds| ==> PairOk(olds[i], news[i], prev)
    ensures ChangesPlain(olds, news)
  {
    var inv, ok := (u: Table) => NoneQuoted(u, prev), (o: Line, n: Line) => PairOk(o, n, prev);
    var plain := (l: Line) => Plain(l);
    forall u, o, n | inv(u) && ok(o, n) && Runs(u, PairOf(o, n))
      ensures plain(o) && inv(After(u, PairOf(o, n)))
    {
      PairIsPlain(u, o, n, prev);
    }
    PairsShow(t, olds, news, inv, ok, plain);
    forall i | 0 <= i < |olds| && olds[i] != news[i]
      ensures Plain(olds[i])
    {
      assert plain(olds[i]);
    }
  }

  /** The rewrite neither adds nor removes quotes. */
  lemma RewriteKeepsQuotes(l: Line, prev: string, next: string)
    requires IsRule(l) && IsDotted(prev, 3) && IsDotted(next, 3)
    ensures Plain(RewriteLine(l, prev, next)) == Plain(l)
  {
    GuardNeverSuppresses(l, prev, next);
    var ws, vs := l.words, RewriteWords(l.words, prev, next);
    forall i | 0 <= i < |ws|
      ensures HasQuote()(vs[i]) == HasQuote()(ws[i])
    {
      RewriteAt(ws, prev, next, i);
      if IsSite(ws, i, prev) {
        QuoteInTail(ws[i], prev, next);
      }
    }
    assert forall i :: 0 <= i < |ws| - 1 ==> ws[1..][i] == ws[i + 1] && vs[1..][i] == vs[i + 1];
  }

  lemma QuoteInTail(w: string, prev: string, next: string)
    requires IsDotted(prev, 3) && IsDotted(next, 3) && AddrAt(w, prev)
    ensures '"' in Subst(true, w, prev, next) <==> '"' in w
  {
    DottedChars(prev, 3);
    DottedChars(next, 3);
    assert w == prev + w[|prev|..];
  }

  lemma PairsAddNone(rs: seq<Line>, prev: string, next: string, i: nat)
    requires IsDotted(prev, 3) && IsDotted(next, 3) && forall j :: 0 <= j < |rs| ==> IsRule(rs[j])
    requires i < |OldLines(rs, prev)| == |NewLines(rs, prev, next)|
    ensures AddsNone(OldLines(rs, prev)[i], NewLines(rs, prev, next)[i], prev)
  {
    var o, n := OldLines(rs, prev)[i], NewLines(rs, prev, next)[i];
    SameLength(rs, prev, next);
    PerLineAt(rs, prev, next, i);
    if |Positional(rs, prev, next)| == |OldLines(rs, prev)| {
      PositionalGood(rs, prev, next, n);
      PositionalRule(rs, prev, next, n);
      RuleNames(n, prev);
    } else {
      RewriteKeepsQuotes(o, prev, next);
      QuotesMeant(Args(n));
    }
  }

  /** No comment has a double quote of its own. */
  predicate Quoteless(t: Table) { forall r :: r in t ==> Unquoted(r) }

  /** Nothing that the plan changes is printed in quotes. */
  ghost predicate PlanIsPlain(t: Text, prev: string, next: string)
  {
    var rs := RuleLines(t.lines);
    SameLength(rs, prev, next);
    ChangesPlain(OldLines(rs, prev), NewLines(rs, prev, next))
  }

  /** Every `-D` of a DESTINATION plan finds its rule on the table the text was saved from, duplicates
      included and however the lines were paired, if and only if no rule that the plan changes is
      printed in quotes: the quotes stay in the arguments and name another comment. */
  lemma PlanFindsItsRules(t: Text, table: Table, prev: string, next: string)
    requires IsDestination(prev) && IsDestination(next)
    requires SavedFrom(RuleLines(t.lines), table) && Quoteless(table)
    ensures Runs(table, Plan(t, prev, next)) <==> PlanIsPlain(t, prev, next)
  {
    var rs := RuleLines(t.lines);
    PlanRuns(rs, table, prev, next);
    var olds, news := OldLines(rs, prev), NewLines(rs, prev, next);
    if Runs(table, Plan(t, prev, next)) {
      forall i | 0 <= i < |olds|
        ensures PairOk(olds[i], news[i], prev)
      {
        SameLength(rs, prev, next);
        PerLineAt(rs, prev, next, i);
        PairsAddNone(rs, prev, next, i);
      }
      QuotedStops(table, olds, news, prev);
    }
  }

  // ----- what a plan that goes through leaves -----

  /** A table built line by line, the lines that are chosen, and what becomes of them. */
  function Zipped(rs: seq<Line>, t: Table, f: (Line, Rule) -> Rule): (r: Table)
    requires |rs| == |t|
    ensures |r| == |rs| && forall i :: 0 <= i < |rs| ==> r[i] == f(rs[i], t[i])
  {
    if rs == [] then [] else [f(rs[0], t[0])] + Zipped(rs[1..], t[1..], f)
  }

  function Chosen(rs: seq<Line>, p: Line -> bool): seq<Line>
  {
    if rs == [] then [] else (if p(rs[0]) then [rs[0]] else []) + Chosen(rs[1..], p)
  }

  function ChosenMapped(rs: seq<Line>, p: Line -> bool, g: Line -> Line): seq<Line>
  {
    if rs == [] then [] else (if p(rs[0]) then [g(rs[0])] else []) + ChosenMapped(rs[1..], p, g)
  }

  function Unit(b: bool): int { if b then 1 else 0 }

  lemma TableCons(x: Rule, t: Table, r: Rule)
    ensures multiset([x] + t)[r] == multiset(t)[r] + Unit(x == r)
  {
  }

  /** If it does line by line, the built table differs from the original one by the chosen lines and what
      becomes of them. */
  lemma {:induction false} ZipBalance(rs: seq<Line>, t: Table,
      f: (Line, Rule) -> Rule, p: Line -> bool, g: Line -> Line, h: Line -> bool, r: Rule)
    requires |rs| == |t|
    requires forall i :: 0 <= i < |rs| ==>
               Unit(f(rs[i], t[i]) == r) == Unit(t[i] == r) - Unit(p(rs[i]) && h(rs[i])) + Unit(p(rs[i]) && h(g(rs[i])))
    ensures multiset(Zipped(rs, t, f))[r] == multiset(t)[r] - Hits(Chosen(rs, p), h) + Hits(ChosenMapped(rs, p, g), h)
  {
    if rs != [] {
      var us, u := rs[1..], t[1..];
      ZipBalance(us, u, f, p, g, h, r);
      TableCons(f(rs[0], t[0]), Zipped(us, u, f), r);
      TableCons(t[0], u, r);
      assert t == [t[0]] + u;
      HitsCons(rs[0], p(rs[0]), Chosen(us, p), h);
      HitsCons(g(rs[0]), p(rs[0]), ChosenMapped(us, p, g), h);
    }
  }

  /** The rule that stands for a line in the rewritten table. */
  function NewRule(l: Line, r: Rule, prev: string, next: string): Rule
  {
    var m := RewriteLine(l, prev, next);
    if m == l then r else RuleOf(m)
  }

  /** The table with every rule rewritten as its line is. */
  function Rewritten(rs: seq<Line>, t: Table, prev: string, next: string): (r: Table)
    requires |rs| == |t|
    ensures |r| == |rs| && forall i :: 0 <= i < |rs| ==> r[i] == NewRule(rs[i], t[i], prev, next)
  {
    Zipped(rs, t, (l: Line, r: Rule) => NewRule(l, r, prev, next))
  }

  lemma {:induction false} OldLinesChosen(rs: seq<Line>, prev: string, p: Line -> bool)
    requires forall l :: p(l) <==> Names(l.words, prev)
    ensures OldLines(rs, prev) == Chosen(rs, p)
  {
    if rs != [] {
      OldLinesChosen(rs[1..], prev, p);
    }
  }

  lemma {:induction false} PerLineChosen(rs: seq<Line>, prev: string, next: string, p: Line -> bool, g: Line -> Line)
    requires (forall l :: p(l) <==> Names(l.words, prev)) && forall l :: g(l) == RewriteLine(l, prev, next)
    ensures PerLine(rs, prev, next) == ChosenMapped(rs, p, g)
  {
    if rs != [] {
      PerLineChosen(rs[1..], prev, next, p, g);
    }
  }

  lemma {:induction false} CountHits(rs: seq<Line>, r: Rule, h: Line -> bool)
    requires forall l :: h(l) <==> RuleOf(l) == r
    ensures Count(rs, r) == Hits(rs, h)
  {
    if rs != [] {
      CountHits(rs[1..], r, h);
    }
  }

  /** Each rule that the per-line rewrite changes is plain. */
  predicate RewritesPlain(rs: seq<Line>, prev: string, next: string)
  {
    forall i :: 0 <= i < |rs| && RewriteLine(rs[i], prev, next) != rs[i] ==> Plain(rs[i])
  }

  /** One line: what the rewritten table gains and loses. */
  lemma LineBalance(l: Line, x: Rule, prev: string, next: string, r: Rule)
    requires IsRule(l) && ReadLine(l.words) == x && (RewriteLine(l, prev, next) != l ==> Plain(l))
    ensures var present := Names(l.words, prev);
            Unit(NewRule(l, x, prev, next) == r) ==
            Unit(x == r) - Unit(present && RuleOf(l) == r) + Unit(present && RuleOf(RewriteLine(l, prev, next)) == r)
  {
    if RewriteLine(l, prev, next) != l {
      PlainNames(l);
    }
  }

  lemma RewrittenBalance(rs: seq<Line>, t: Table, prev: string, next: string, r: Rule)
    requires SavedFrom(rs, t) && RewritesPlain(rs, prev, next)
    ensures multiset(Rewritten(rs, t, prev, next))[r] ==
            multiset(t)[r] - Count(OldLines(rs, prev), r) + Count(PerLine(rs, prev, next), r)
  {
    var f := (l: Line, x: Rule) => NewRule(l, x, prev, next);
    var p, g := (l: Line) => Names(l.words, prev), (l: Line) => RewriteLine(l, prev, next);
    var h := (l: Line) => RuleOf(l) == r;
    forall i | 0 <= i < |rs|
      ensures Unit(f(rs[i], t[i]) == r) == Unit(t[i] == r) - Unit(p(rs[i]) && h(rs[i])) + Unit(p(rs[i]) && h(g(rs[i])))
    {
      LineBalance(rs[i], t[i], prev, next, r);
    }
    ZipBalance(rs, t, f, p, g, h, r);
    OldLinesChosen(rs, prev, p);
    PerLineChosen(rs, prev, next, p, g);
    CountHits(OldLines(rs, prev), r, h);
    CountHits(PerLine(rs, prev, next), r, h);
    assert Rewritten(rs, t, prev, next) == Zipped(rs, t, f);
  }

  /** A line that names the old address is among the old lines, with its rewrite beside it. */
  lemma {:induction false} PerLinePlace(rs: seq<Line>, prev: string, next: string, i: nat) returns (j: nat)
    requires i < |rs| && Names(rs[i].words, prev)
    ensures j < |OldLines(rs, prev)| == |PerLine(rs, prev, next)| && OldLines(rs, prev)[j] == rs[i]
    ensures PerLine(rs, prev, next)[j] == RewriteLine(rs[i], prev, next)
  {
    SameLength(rs, prev, next);
    if i == 0 {
      j := 0;
    } else {
      j := PerLinePlace(rs[1..], prev, next, i - 1);
      if Names(rs[0].words, prev) {
        j := j + 1;
      }
    }
  }

  lemma PlanRewritesPlain(rs: seq<Line>, prev: string, next: string)
    requires |OldLines(rs, prev)| == |NewLines(rs, prev, next)|
    requires ChangesPlain(OldLines(rs, prev), NewLines(rs, prev, next))
    ensures RewritesPlain(rs, prev, next)
  {
    forall i | 0 <= i < |rs| && RewriteLine(rs[i], prev, next) != rs[i]
      ensures Plain(rs[i])
    {
      var j := PerLinePlace(rs, prev, next, i);
      var n := NewLines(rs, prev, next)[j];
      if |Positional(rs, prev, next)| == |OldLines(rs, prev)| {
        PositionalGood(rs, prev, next, n);
      }
    }
  }

  lemma {:induction false} CountGood(news: seq<Line>, prev: string, next: string, r: Rule)
    requires IsDotted(prev, 3) && IsDotted(next, 3) && !(Names(r, next) && !Names(r, prev))
    requires forall i :: 0 <= i < |news| ==> IsRule(news[i]) && IsGood(news[i], prev, next)
    ensures Count(news, r) == 0
    decreases |news|
  {
    if news != [] {
      RuleNames(news[0], prev);
      RuleNames(news[0], next);
      CountGood(news[1..], prev, next, r);
    }
  }

  lemma {:induction false} CountMember(rs: seq<Line>, l: Line)
    requires l in rs
    ensures Count(rs, RuleOf(l)) > 0
  {
    if rs[0] != l {
      CountMember(rs[1..], l);
    }
  }

  /** Lines paired with another line's rewrite give other rules. */
  lemma MispairedDiffers(rs: seq<Line>, prev: string, next: string) returns (r: Rule)
    requires IsDotted(prev, 3) && IsDotted(next, 3) && forall j :: 0 <= j < |rs| ==> IsRule(rs[j])
    requires Taken(rs, prev, next) == Spoiled(rs, prev, next) > 0
    ensures Count(NewLines(rs, prev, next), r) == 0 < Count(PerLine(rs, prev, next), r)
  {
    PositionalCount(rs, prev, next);
    var news := Positional(rs, prev, next);
    SpoiledShows(rs, prev, next);
    var l :| l in PerLine(rs, prev, next) && !IsGood(l, prev, next);
    r := RuleOf(l);
    var j :| 0 <= j < |PerLine(rs, prev, next)| && PerLine(rs, prev, next)[j] == l;
    SameLength(rs, prev, next);
    PerLineAt(rs, prev, next, j);
    RewriteKeepsRules(OldLines(rs, prev)[j], prev, next);
    RuleNames(l, prev);
    RuleNames(l, next);
    forall i | 0 <= i < |news|
      ensures IsRule(news[i]) && IsGood(news[i], prev, next)
    {
      PositionalGood(rs, prev, next, news[i]);
      PositionalRule(rs, prev, next, news[i]);
    }
    CountGood(news, prev, next, r);
    CountMember(PerLine(rs, prev, next), l);
  }

  /** What separates the planned table from the rewritten one. */
  lemma PlanBalance(t: Text, table: Table, prev: string, next: string, r: Rule)
    requires SavedFrom(RuleLines(t.lines), table) && PlanIsPlain(t, prev, next)
    ensures var rs := RuleLines(t.lines);
            multiset(After(table, Plan(t, prev, next)))[r] ==
            multiset(Rewritten(rs, table, prev, next))[r] +
            Count(NewLines(rs, prev, next), r) - Count(PerLine(rs, prev, next), r)
  {
    var rs := RuleLines(t.lines);
    PlanRuns(rs, table, prev, next);
    PlanRewritesPlain(rs, prev, next);
    RewrittenBalance(rs, table, prev, next, r);
  }

  lemma PairedTable(t: Text, table: Table, prev: string, next: string)
    requires SavedFrom(RuleLines(t.lines), table) && PlanIsPlain(t, prev, next)
    requires NewLines(RuleLines(t.lines), prev, next) == PerLine(RuleLines(t.lines), prev, next)
    ensures multiset(After(table, Plan(t, prev, next))) == multiset(Rewritten(RuleLines(t.lines), table, prev, next))
  {
    forall r
      ensures multiset(After(table, Plan(t, prev, next)))[r] ==
              multiset(Rewritten(RuleLines(t.lines), table, prev, next))[r]
    {
      PlanBalance(t, table, prev, next, r);
    }
  }

  lemma MispairedTable(t: Text, table: Table, prev: string, next: string)
    requires IsDotted(prev, 3) && IsDotted(next, 3)
    requires SavedFrom(RuleLines(t.lines), table) && PlanIsPlain(t, prev, next)
    requires Taken(RuleLines(t.lines), prev, next) == Spoiled(RuleLines(t.lines), prev, next) > 0
    ensures multiset(After(table, Plan(t, prev, next))) != multiset(Rewritten(RuleLines(t.lines), table, prev, next))
  {
    var r := MispairedDiffers(RuleLines(t.lines), prev, next);
    PlanBalance(t, table, prev, next, r);
  }

  /** A plan that goes through leaves exactly the rewritten rules, each as often as in the original, if
      and only if every line was paired with its own rewrite. */
  lemma PlanRewritesTable(t: Text, table: Table, prev: string, next: string)
    requires IsDestination(prev) && IsDestination(next)
    requires SavedFrom(RuleLines(t.lines), table) && PlanIsPlain(t, prev, next)
    ensures var rs := RuleLines(t.lines);
            multiset(After(table, Plan(t, prev, next))) == multiset(Rewritten(rs, table, prev, next)) <==>
            !(Taken(rs, prev, next) == Spoiled(rs, prev, next) > 0)
  {
    var rs := RuleLines(t.lines);
    if Taken(rs, prev, next) == Spoiled(rs, prev, next) > 0 {
      MispairedTable(t, table, prev, next);
    } else {
      PairingIsPerLine(rs, prev, next);
      PairedTable(t, table, prev, next);
    }
  }

  // ----- rules that name neither address -----

  function Neither(prev: string, next: string): Rule -> bool
  {
    (r: Rule) => !Names(r, prev) && !Names(r, next)
  }

  /** A rewrite that changes a rule makes it name the new address. */
  lemma ChangedNamesNew(l: Line, prev: string, next: string)
    requires IsRule(l) && IsDotted(prev, 3) && IsDotted(next, 3) && RewriteLine(l, prev, next) != l
    ensures Names(RewriteLine(l, prev, next).words, next)
  {
    var vs := RewriteWords(l.words, prev, next);
    assert vs != l.words;
    var i :| 0 <= i < |vs| && vs[i] != l.words[i];
    RewriteAt(l.words, prev, next, i);
    SubstAddr(l.words[i], prev, next);
    assert NameAt(vs[i], 0, next);
    assert WordNames(vs[i], next);
  }

  lemma PairSpares(o: Line, n: Line, keep: Rule -> bool)
    requires !keep(RuleOf(o)) && !keep(RuleOf(n))
    ensures Spares(PairOf(o, n)[0], keep) && Spares(PairOf(o, n)[1], keep)
  {
    CommandParsed(DELETE, Args(o));
    CommandParsed(APPEND, Args(n));
  }

  /** All commands of a plan spare the rules that none of its pairs names. */
  lemma {:induction false} PairsSpare(olds: seq<Line>, news: seq<Line>, keep: Rule -> bool)
    requires |olds| == |news|
    requires forall j :: 0 <= j < |olds| && olds[j] != news[j] ==> !keep(RuleOf(olds[j])) && !keep(RuleOf(news[j]))
    ensures forall i :: 0 <= i < |PairCommands(olds, news)| ==> Spares(PairCommands(olds, news)[i], keep)
    decreases |olds|
  {
    if olds != [] {
      var rest := PairCommands(olds[1..], news[1..]);
      PairsSpare(olds[1..], news[1..], keep);
      if olds[0] == news[0] {
        assert PairCommands(olds, news) == [] + rest == rest;
      } else {
        PairSpares(olds[0], news[0], keep);
        assert PairCommands(olds, news) == PairOf(olds[0], news[0]) + rest;
      }
    }
  }

  /** Each pair that differs names the old address on the left and the new one on the right. */
  lemma PairNames(rs: seq<Line>, prev: string, next: string, i: nat)
    requires IsDotted(prev, 3) && IsDotted(next, 3) && forall j :: 0 <= j < |rs| ==> IsRule(rs[j])
    requires i < |OldLines(rs, prev)| == |NewLines(rs, prev, next)|
    requires OldLines(rs, prev)[i] != NewLines(rs, prev, next)[i]
    ensures !Neither(prev, next)(RuleOf(OldLines(rs, prev)[i]))
    ensures !Neither(prev, next)(RuleOf(NewLines(rs, prev, next)[i]))
  {
    var o, n := OldLines(rs, prev)[i], NewLines(rs, prev, next)[i];
    SameLength(rs, prev, next);
    PerLineAt(rs, prev, next, i);
    RuleNames(o, prev);
    if |Positional(rs, prev, next)| == |OldLines(rs, prev)| {
      PositionalGood(rs, prev, next, n);
      PositionalRule(rs, prev, next, n);
    } else {
      ChangedNamesNew(o, prev, next);
      RewriteKeepsRules(o, prev, next);
    }
    RuleNames(n, next);
  }

  /** In every outcome, rollback failures included, the rules that name neither address keep their
      order; if no rule named the new address before, these are all rules that do not name the old one. */
  lemma RewriteSparesOthers(t: Text, prev: string, next: string, w: World, fs: Faults)
    requires IsDestination(prev) && IsDestination(next)
    ensures KeepsOrder(w, Apply(w, Plan(t, prev, next), 0, fs).world, Neither(prev, next))
  {
    var rs := RuleLines(t.lines);
    SameLength(rs, prev, next);
    var olds, news := OldLines(rs, prev), NewLines(rs, prev, next);
    forall j | 0 <= j < |olds| && olds[j] != news[j]
      ensures !Neither(prev, next)(RuleOf(olds[j])) && !Neither(prev, next)(RuleOf(news[j]))
    {
      PairNames(rs, prev, next, j);
    }
    PairsSpare(olds, news, Neither(prev, next));
    ApplySpares(w, Plan(t, prev, next), 0, fs, Neither(prev, next));
  }

  // ----- the tables on the way -----

  /** A DESTINATION plan never has a rule and its replacement in the table at the same time: there are as
      many rules as before, or one fewer between the two commands of a pair. */
  lemma PlanNeverDoubles(table: Table, t: Text, prev: string, next: string, k: nat)
    requires k <= |Plan(t, prev, next)| && Runs(table, Plan(t, prev, next)[..k])
    ensures |After(table, Plan(t, prev, next)[..k])| == |table| - k % 2
  {
    forall i: nat | i < |Plan(t, prev, next)|
      ensures Acts(Plan(t, prev, next)[i], i % 2 == 0)
    {
      CommandInTurn(t, prev, next, i);
    }
    AlternatingSize(table, Plan(t, prev, next), k);
  }

  lemma WordsAct(args: seq<string>)
    ensures Acts(["iptables", "-w", "-t", "nat", "-D"] + args, true)
    ensures Acts(["iptables", "-w", "-t", "nat", "-A"] + args, false)
  {
    CommandParsed(DELETE, args);
    CommandParsed(APPEND, args);
    assert ["iptables", "-w", "-t", "nat", "-D"] + args == Command(DELETE, args);
    assert ["iptables", "-w", "-t", "nat", "-A"] + args == Command(APPEND, args);
  }

  lemma PairInTurn(t: Text, prev: string, next: string, j: nat)
    requires 2 * j < |Plan(t, prev, next)|
    ensures Acts(Plan(t, prev, next)[2 * j], true)
    ensures 2 * j + 1 < |Plan(t, prev, next)| && Acts(Plan(t, prev, next)[2 * j + 1], false)
  {
    var o, n := PlanShape(t, prev, next, j);
    WordsAct(Args(o));
    WordsAct(Args(n));
  }

  lemma CommandInTurn(t: Text, prev: string, next: string, i: nat)
    requires i < |Plan(t, prev, next)|
    ensures Acts(Plan(t, prev, next)[i], i % 2 == 0)
  {
    var j := i / 2;
    PairInTurn(t, prev, next, j);
    if i % 2 == 0 {
      assert i == 2 * j;
    } else {
      assert i == 2 * j + 1;
    }
  }
}
