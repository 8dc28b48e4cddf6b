/** Which rules of the table the detection of a front finds. */
module FrontRules {
  import opened Words
  import opened Ipv4
  import opened RulesText
  import opened Detect
  import opened Spelling
  import opened NatTable
  import opened Fronts

  function Printed(c: string, quoted: bool): string { if quoted then "\"" + c + "\"" else c }

  /** How a line spells a DNAT rule: with `-m udp` or without, the comment in quotes or bare. */
  datatype Style = Style(loads: bool, quoted: bool)

  function Shift(st: Style): nat { if st.loads then 2 else 0 }

  /** The words of the line that shows the DNAT rule of a front. */
  function ShownDnat(f: Front, ip: string, st: Style): (ws: seq<string>)
    ensures |ws| == 14 + Shift(st)
  {
    if st.loads then ["-A", "PREROUTING", "-p", "udp", "-m", "udp"] + DnatRest(f, ip, Printed(Comment(f), st.quoted))
    else ["-A", "PREROUTING", "-p", "udp"] + DnatRest(f, ip, Printed(Comment(f), st.quoted))
  }

  function DnatRest(f: Front, ip: string, comment: string): seq<string>
  {
    ["--dport", FrontPort(f), "-m", "comment", "--comment", comment, "-j", "DNAT", TO_DESTINATION, Target(f, ip)]
  }

  lemma MissingChar(w: string, p: string, k: nat)
    requires k < |p| && p[k] !in w
    ensures !Contains(w, p)
  {
    forall i | 0 <= i <= |w|
      ensures !OccursAt(w, i, p)
    {
      if i + |p| <= |w| {
        assert w[i + k] in w;
        assert w[i..i + |p|][k] == w[i + k];
      }
    }
  }

  lemma DigitsHaveNo(n: nat, c: char)
    requires !IsDigit(c)
    ensures c !in Decimal(n)
  {
  }

  lemma LabelHasNo(f: Front, c: char)
    requires IsFront(f) && !IsLabelChar(c)
    ensures c !in f.name
  {
  }

  // ----- the comment as a substring -----

  /** The colon of a comment is its only one. */
  lemma ColonAt(g: Front, quoted: bool, i: nat)
    requires IsFront(g) && i < |Printed(Comment(g), quoted)|
    ensures Printed(Comment(g), quoted)[i] == ':' <==> i == |Tag(g)| - 1 + if quoted then 1 else 0
  {
    var w, c := Printed(Comment(g), quoted), Comment(g);
    var o := if quoted then 1 else 0;
    LabelHasNo(g, ':');
    if o <= i < o + |c| {
      assert w[i] == c[i - o];
      if i - o >= |Tag(g)| {
        assert c[i - o] == g.name[i - o - |Tag(g)|];
        assert c[i - o] in g.name;
      }
    }
  }

  lemma PrefixOccurs(f: Front, g: Front, quoted: bool)
    requires f.Awg2? == g.Awg2? && f.name <= g.name
    ensures Contains(Printed(Comment(g), quoted), Comment(f))
  {
    var w, c := Printed(Comment(g), quoted), Comment(f);
    var o := if quoted then 1 else 0;
    assert Comment(g)[..|c|] == c;
    assert w[o..o + |c|] == Comment(g)[..|c|];
    assert OccursAt(w, o, c);
  }

  lemma OccursChar(w: string, i: int, p: string, j: nat)
    requires OccursAt(w, i, p) && j < |p|
    ensures w[i + j] == p[j]
  {
    assert w[i..i + |p|][j] == w[i + j];
  }

  /** An occurrence of a comment lines up the two colons, so it starts where the comment does. */
  lemma OccursAligned(f: Front, g: Front, quoted: bool, i: nat)
    requires IsFront(f) && IsFront(g) && OccursAt(Printed(Comment(g), quoted), i, Comment(f))
    ensures f.Awg2? == g.Awg2? && i == if quoted then 1 else 0
  {
    var w, c := Printed(Comment(g), quoted), Comment(f);
    var o := if quoted then 1 else 0;
    OccursChar(w, i, c, |Tag(f)| - 1);
    ColonAt(g, quoted, i + |Tag(f)| - 1);
    assert i + |Tag(f)| == o + |Tag(g)|;
    OccursChar(w, i, c, 0);
  }

  lemma OccursName(f: Front, g: Front, quoted: bool, i: nat, j: nat)
    requires IsFront(f) && IsFront(g) && OccursAt(Printed(Comment(g), quoted), i, Comment(f)) && j < |f.name|
    ensures j < |g.name| && g.name[j] == f.name[j]
  {
    OccursAligned(f, g, quoted, i);
    LabelHasNo(f, '"');
    OccursChar(Printed(Comment(g), quoted), i, Comment(f), |Tag(f)| + j);
    assert f.name[j] in f.name;
  }

  lemma OccursIsPrefix(f: Front, g: Front, quoted: bool, i: nat)
    requires IsFront(f) && IsFront(g) && OccursAt(Printed(Comment(g), quoted), i, Comment(f))
    ensures f.Awg2? == g.Awg2? && f.name <= g.name
  {
    OccursAligned(f, g, quoted, i);
    OccursName(f, g, quoted, i, |f.name| - 1);
    forall j | 0 <= j < |f.name|
      ensures g.name[j] == f.name[j]
    {
      OccursName(f, g, quoted, i, j);
    }
  }

  /** The comment test of one front accepts the comment of another exactly when both are of the same
      family and its label is a prefix of the other label. */
  lemma CommentOccurs(f: Front, g: Front, quoted: bool)
    requires IsFront(f) && IsFront(g)
    ensures Contains(Printed(Comment(g), quoted), Comment(f)) <==> f.Awg2? == g.Awg2? && f.name <= g.name
  {
    var w := Printed(Comment(g), quoted);
    if Contains(w, Comment(f)) {
      var i :| 0 <= i <= |w| && OccursAt(w, i, Comment(f));
      OccursIsPrefix(f, g, quoted, i);
    } else if f.Awg2? == g.Awg2? && f.name <= g.name {
      PrefixOccurs(f, g, quoted);
    }
  }

  // ----- the other words of a rule -----

  lemma PlainWordsSpared(f: Front)
    ensures !Contains("-A", Comment(f)) && !Contains("PREROUTING", Comment(f)) && !Contains("-p", Comment(f))
    ensures !Contains("udp", Comment(f)) && !Contains("--dport", Comment(f)) && !Contains("-m", Comment(f))
    ensures !Contains("comment", Comment(f)) && !Contains("--comment", Comment(f)) && !Contains("-j", Comment(f))
    ensures !Contains("DNAT", Comment(f)) && !Contains(TO_DESTINATION, Comment(f))
  {
    var c, k := Comment(f), |Tag(f)| - 1;
    assert c[k] == ':';
    MissingChar("-A", c, k);
    MissingChar("PREROUTING", c, k);
    MissingChar("-p", c, k);
    MissingChar("udp", c, k);
    MissingChar("--dport", c, k);
    MissingChar("-m", c, k);
    MissingChar("comment", c, k);
    MissingChar("--comment", c, k);
    MissingChar("-j", c, k);
    MissingChar("DNAT", c, k);
    MissingChar(TO_DESTINATION, c, k);
  }

  lemma AddressWordsSpared(f: Front, g: Front, ip: string)
    requires AllAddr(ip)
    ensures !Contains(FrontPort(g), Comment(f)) && !Contains(Target(g, ip), Comment(f))
  {
    var c := Comment(f);
    assert c[0] == 'a';
    if g.Awg2? {
      DigitsHaveNo(g.port, 'a');
      DigitsHaveNo(g.backendPort, 'a');
    }
    assert 'a' !in ip;
    MissingChar(FrontPort(g), c, 0);
    MissingChar(Target(g, ip), c, 0);
  }

  /** The words of such a line. */
  lemma ShownWords(f: Front, ip: string, st: Style, i: nat)
    requires i < 14 + Shift(st)
    ensures var w, o := ShownDnat(f, ip, st)[i], Shift(st);
            if i < 4 + o then w == ["-A", "PREROUTING", "-p", "udp", "-m", "udp"][i]
            else w == DnatRest(f, ip, Printed(Comment(f), st.quoted))[i - 4 - o]
  {
  }

  /** The line of a front's DNAT rule is claimed by another front exactly when that front is of the
      same family and its label is a prefix. */
  lemma DnatLineClaimed(f: Front, g: Front, ip: string, st: Style)
    requires IsFront(f) && IsFront(g) && AllAddr(ip)
    ensures LineContains(ShownDnat(g, ip, st), Comment(f)) <==> f.Awg2? == g.Awg2? && f.name <= g.name
  {
    var ws, at := ShownDnat(g, ip, st), 9 + Shift(st);
    forall i | 0 <= i < |ws| && i != at
      ensures !Contains(ws[i], Comment(f))
    {
      ShownWords(g, ip, st, i);
      PlainWordsSpared(f);
      AddressWordsSpared(f, g, ip);
    }
    ShownWords(g, ip, st, at);
    CommentOccurs(f, g, st.quoted);
  }

  // ----- a MASQUERADE line is never taken for a DNAT rule -----

  const CHAIN := "PREROUTING"

  function HoldsChain(): string -> bool { (w: string) => Contains(w, CHAIN) }

  /** Cutting off a tail that has no letter of `p` does not change whether `p` occurs. */
  lemma ContainsCut(w: string, p: string, n: nat)
    requires n <= |w| && p != [] && forall i :: n <= i < |w| ==> w[i] != p[|p| - 1]
    ensures Contains(w, p) <==> Contains(w[..n], p)
  {
    if Contains(w, p) {
      var i :| 0 <= i <= |w| && OccursAt(w, i, p);
      OccursChar(w, i, p, |p| - 1);
      assert w[..n][i..i + |p|] == w[i..i + |p|];
      assert OccursAt(w[..n], i, p);
    }
    if Contains(w[..n], p) {
      var i :| 0 <= i <= n && OccursAt(w[..n], i, p);
      assert w[..n][i..i + |p|] == w[i..i + |p|];
      assert OccursAt(w, i, p);
    }
  }

  lemma ContainsBehind(w: string, p: string)
    requires w != [] && p != [] && w[0] != p[0]
    ensures Contains(w, p) <==> Contains(w[1..], p)
  {
    var t := w[1..];
    if Contains(w, p) {
      var i :| 0 <= i <= |w| && OccursAt(w, i, p);
      OccursChar(w, i, p, 0);
      assert t[i - 1..i - 1 + |p|] == w[i..i + |p|];
      assert OccursAt(t, i - 1, p);
    }
    if Contains(t, p) {
      var i :| 0 <= i <= |t| && OccursAt(t, i, p);
      assert t[i..i + |p|] == w[i + 1..i + 1 + |p|];
      assert OccursAt(w, i + 1, p);
    }
  }

  lemma ChainBlind()
    ensures Blind(HoldsChain(), true)
  {
    MissingChar("-m", CHAIN, 0);
    forall prev, w
      ensures HoldsChain()(Meant(prev, w, true)) == HoldsChain()(w)
    {
      if prev == "-d" && EndsWith(w, "/32") {
        forall i | |w| - 3 <= i < |w|
          ensures w[i] != 'G'
        {
          assert w[i] == w[|w| - 3..][i - (|w| - 3)];
        }
        ContainsCut(w, CHAIN, |w| - 3);
      } else if prev == "--comment" && InQuotes(w) {
        ContainsBehind(w, CHAIN);
        ContainsCut(w[1..], CHAIN, |w| - 2);
        assert w[1..][..|w| - 2] == w[1..|w| - 1];
      }
    }
  }

  lemma CommentHasNoP(g: Front)
    requires IsFront(g)
    ensures 'P' !in Comment(g)
  {
    LabelHasNo(g, 'P');
    assert 'P' !in Tag(g);
  }

  lemma MasqHasNoChain(g: Front, ip: string)
    requires IsFront(g) && AllAddr(ip)
    ensures !Any(MasqRule(g, ip), HoldsChain())
  {
    var r := MasqRule(g, ip);
    forall i | 0 <= i < |r|
      ensures !Contains(r[i], CHAIN)
    {
      if i == 0 {
        MissingChar(r[i], CHAIN, 2);
      } else {
        if g.Awg2? {
          DigitsHaveNo(g.backendPort, 'P');
        }
        CommentHasNoP(g);
        MissingChar(r[i], CHAIN, 0);
      }
    }
  }

  lemma MasqLineIgnored(f: Front, g: Front, ip: string, ws: seq<string>)
    requires IsFront(g) && AllAddr(ip) && IsSaved(ws, MasqRule(g, ip))
    ensures FrontSite(ws, f) == -1
  {
    MasqHasNoChain(g, ip);
    ChainBlind();
    AnyMeant(ws[1..], true, HoldsChain());
    MissingChar("-A", CHAIN, 0);
    forall i | 0 <= i < |ws|
      ensures !Contains(ws[i], CHAIN)
    {
      if i > 0 {
        assert ws[i] == ws[1..][i - 1];
        assert !HoldsChain()(ws[1..][i - 1]);
      }
    }
  }

  // ----- a front finds its own rule -----

  lemma {:induction false} DnatToIs(v: seq<Seen>, lo: nat, k: nat)
    requires lo <= k && DnatToAt(v, k) && forall j :: lo < j <= k ==> 0 <= j < |v| && !v[j].dnat
    ensures DnatToFrom(v, lo) == k
    decreases k - lo
  {
    if lo < k {
      DnatToIs(v, lo + 1, k);
    }
  }

  lemma NotDnat(w: string)
    requires |w| != 4 || IsDigit(w[0])
    ensures !See(w).dnat
  {
    if |w| == 4 {
      assert Lower(w)[0] == w[0];
    }
  }

  /** None of the words between `-A` and the jump is DNAT. */
  lemma WordsBeforeJump(f: Front, ip: string, st: Style, j: nat)
    requires f.Awg2? && 0 < j <= 10 + Shift(st)
    ensures !See(ShownDnat(f, ip, st)[j]).dnat
  {
    ShownWords(f, ip, st, j);
    NotDnat(ShownDnat(f, ip, st)[j]);
  }

  lemma TargetRead(f: Front, ip: string)
    requires IsDotted(ip, 3)
    ensures QuadLen(Target(f, ip)) == |ip| && Target(f, ip)[..|ip|] == ip
    ensures f.Awg3? ==> RangeWord(Target(f, ip))
  {
    var w := Target(f, ip);
    assert AddrAt(w, ip);
    QuadOfAddress(w, ip);
    assert f.Awg3? ==> w[|ip|..] == PORT_RANGE;
  }

  lemma ShownEnd(f: Front, ip: string, st: Style)
    ensures var ws, o := ShownDnat(f, ip, st), Shift(st);
            ws[10 + o] == "-j" && ws[11 + o] == "DNAT" && ws[12 + o] == TO_DESTINATION && ws[13 + o] == Target(f, ip)
  {
    ShownWords(f, ip, st, 10 + Shift(st));
    ShownWords(f, ip, st, 11 + Shift(st));
    ShownWords(f, ip, st, 12 + Shift(st));
    ShownWords(f, ip, st, 13 + Shift(st));
  }

  lemma ShownJump(f: Front, ip: string, st: Style)
    ensures SeeAll(ShownDnat(f, ip, st))[10 + Shift(st)].jump && SeeAll(ShownDnat(f, ip, st))[11 + Shift(st)].dnat
  {
    ShownEnd(f, ip, st);
    JumpAt(ShownDnat(f, ip, st), 10 + Shift(st));
    DnatAt(ShownDnat(f, ip, st), 11 + Shift(st));
  }

  lemma ShownAddress(f: Front, ip: string, st: Style)
    requires IsDotted(ip, 3)
    ensures SeeAll(ShownDnat(f, ip, st))[12 + Shift(st)].to && SeeAll(ShownDnat(f, ip, st))[13 + Shift(st)].quad
  {
    ShownEnd(f, ip, st);
    TargetRead(f, ip);
    ToAt(ShownDnat(f, ip, st), 12 + Shift(st));
    QuadAt(ShownDnat(f, ip, st), 13 + Shift(st));
  }

  lemma ShownTarget(f: Front, ip: string, st: Style)
    requires IsDotted(ip, 3)
    ensures DnatToAt(SeeAll(ShownDnat(f, ip, st)), 10 + Shift(st))
  {
    ShownJump(f, ip, st);
    ShownAddress(f, ip, st);
  }

  lemma Awg2Site(f: Front, ip: string, st: Style)
    requires f.Awg2? && IsDotted(ip, 3)
    ensures DnatToFrom(SeeAll(ShownDnat(f, ip, st)), 0) == 10 + Shift(st)
  {
    var ws := ShownDnat(f, ip, st);
    var v := SeeAll(ws);
    ShownTarget(f, ip, st);
    forall j | 0 < j <= 10 + Shift(st)
      ensures !v[j].dnat
    {
      SeenAt(ws, j);
      WordsBeforeJump(f, ip, st, j);
    }
    DnatToIs(v, 0, 10 + Shift(st));
  }

  lemma {:induction false} RangeToIs(ws: seq<string>, lo: nat, k: nat)
    requires lo <= k && k + 1 < |ws| && EndsWith(ws[k], TO_DESTINATION) && RangeWord(ws[k + 1])
    requires forall j :: lo < j <= k ==> !RangeWord(ws[j])
    ensures RangeToFrom(ws, lo) == k
    decreases k - lo
  {
    if lo < k {
      RangeToIs(ws, lo + 1, k);
    }
  }

  lemma NotRange(w: string)
    requires DigitRun(w) == 0 || DigitRun(w) > 3
    ensures !RangeWord(w)
  {
  }

  lemma WordsBeforeRange(f: Front, ip: string, st: Style, j: nat)
    requires f.Awg3? && 0 < j <= 12 + Shift(st)
    ensures !RangeWord(ShownDnat(f, ip, st)[j])
  {
    var w := ShownDnat(f, ip, st)[j];
    ShownWords(f, ip, st, j);
    if j == 5 + Shift(st) {
      DigitRunIs(w, 5);
    } else {
      assert !IsDigit(w[0]);
      DigitRunIs(w, 0);
    }
    NotRange(w);
  }

  lemma Awg3Site(f: Front, ip: string, st: Style)
    requires f.Awg3? && IsDotted(ip, 3)
    ensures RangeToFrom(ShownDnat(f, ip, st), 0) == 12 + Shift(st)
  {
    var ws, k := ShownDnat(f, ip, st), 12 + Shift(st);
    TargetRead(f, ip);
    ShownWords(f, ip, st, k);
    ShownWords(f, ip, st, k + 1);
    assert EndsWith(ws[k], TO_DESTINATION) by {
      assert ws[k][0..] == ws[k];
    }
    forall j | 0 < j <= k
      ensures !RangeWord(ws[j])
    {
      WordsBeforeRange(f, ip, st, j);
    }
    RangeToIs(ws, 0, k);
  }

  lemma OwnMentioned(f: Front, ip: string, st: Style)
    ensures Mentions(SeeAll(ShownDnat(f, ip, st)))
    ensures LineContains(ShownDnat(f, ip, st), CHAIN)
  {
    var ws := ShownDnat(f, ip, st);
    ShownEnd(f, ip, st);
    DnatMentionedAt(ws, 11 + Shift(st));
    ShownWords(f, ip, st, 1);
    assert OccursAt(ws[1], 0, CHAIN);
    assert Contains(ws[1], CHAIN);
  }

  lemma OwnSite(f: Front, ip: string, st: Style)
    requires IsFront(f) && IsDotted(ip, 3)
    ensures FrontSite(ShownDnat(f, ip, st), f) == 13 + Shift(st)
    ensures AddressIn(ShownDnat(f, ip, st), 13 + Shift(st)) == ip
  {
    DottedChars(ip, 3);
    DnatLineClaimed(f, f, ip, st);
    OwnMentioned(f, ip, st);
    TargetRead(f, ip);
    ShownWords(f, ip, st, 13 + Shift(st));
    if f.Awg2? {
      Awg2Site(f, ip, st);
    } else {
      Awg3Site(f, ip, st);
    }
  }

  // ----- lines and rules -----

  /** The words are a saved line that shows the rule, in whichever spelling. */
  predicate IsSaved(ws: seq<string>, r: Rule)
  {
    ws != [] && ws[0] == "-A" && ReadLine(ws) == r
  }

  lemma RestSpecial(f: Front, ip: string, comment: string, i: nat)
    requires i < 9 && comment != [] && comment[0] != '-'
    ensures !Special(DnatRest(f, ip, comment)[i], false)
    ensures i != 4 ==> !Special(DnatRest(f, ip, comment)[i], true)
  {
    assert IsDigit(FrontPort(f)[0]);
  }

  /** Behind the port the comment may be in quotes, the rest is spelled in one way. */
  lemma RestSpelled(ws: seq<string>, f: Front, ip: string) returns (quoted: bool)
    requires Folded("udp", ws, true) == DnatRest(f, ip, Comment(f))
    ensures ws == DnatRest(f, ip, Printed(Comment(f), quoted))
  {
    var c := Comment(f);
    var r := DnatRest(f, ip, c);
    assert c[0] == 'a';
    forall i | 0 <= i < 9 && i != 4
      ensures !Special(r[i], true)
    {
      RestSpecial(f, ip, c, i);
    }
    FoldedStarts("udp", ws, true, r, 5);
    var vs := ws[5..];
    quoted := InQuotes(vs[0]);
    CommentSpelled(vs, c, r[5..]);
    EndSpelled(vs[1..], c, r[6..]);
    assert ws == r[..5] + ([vs[0]] + r[6..]);
  }

  lemma CommentSpelled(vs: seq<string>, c: string, r: seq<string>)
    requires Folded("--comment", vs, true) == r && r != [] && r[0] == c
    ensures vs != [] && vs[0] == Printed(c, InQuotes(vs[0])) && Folded(c, vs[1..], true) == r[1..]
  {
  }

  lemma EndSpelled(vs: seq<string>, c: string, r: seq<string>)
    requires !Special(c, true) && Folded(c, vs, true) == r && forall i :: 0 <= i < |r| - 1 ==> !Special(r[i], true)
    ensures vs == r
  {
    FoldedStarts(c, vs, true, r, |r|);
    assert r[..|r|] == r && vs[..|r|] + vs[|r|..] == vs;
  }

  /** The spellings of a DNAT rule. */
  lemma SavedDnat(ws: seq<string>, f: Front, ip: string) returns (st: Style)
    requires IsSaved(ws, DnatRule(f, ip))
    ensures ws == ShownDnat(f, ip, st)
  {
    DnatAsHead(f, ip);
    DnatOrdered(f, ip);
    NotReordered(Folded("", ws[1..], true), DnatRule(f, ip));
    var rest, loads := HeadSpelled("", ws[1..], "PREROUTING", "-p", "udp", DnatRest(f, ip, Comment(f)));
    var quoted := RestSpelled(rest, f, ip);
    st := Style(loads, quoted);
    ShownArgs(f, ip, st);
    SameTail(ws, ShownDnat(f, ip, st));
  }

  lemma SameTail(a: seq<string>, b: seq<string>)
    requires a != [] && b != [] && a[0] == b[0] && a[1..] == b[1..]
    ensures a == b
  {
    assert a == [a[0]] + a[1..] && b == [b[0]] + b[1..];
  }

  /** Each of them is one. */
  lemma ShownIsSaved(f: Front, ip: string, st: Style)
    ensures IsSaved(ShownDnat(f, ip, st), DnatRule(f, ip))
  {
    var rest := DnatRest(f, ip, Printed(Comment(f), st.quoted));
    ShownRest(f, ip, st.quoted);
    HeadFoldedEither("", "PREROUTING", "-p", "udp", st.loads, rest, true);
    ShownArgs(f, ip, st);
    DnatAsHead(f, ip);
    DnatOrdered(f, ip);
  }

  lemma ShownArgs(f: Front, ip: string, st: Style)
    ensures ShownDnat(f, ip, st)[1..] ==
            ["PREROUTING"] + (["-p"] + ((if st.loads then ["udp", "-m", "udp"] else ["udp"]) +
                                        DnatRest(f, ip, Printed(Comment(f), st.quoted))))
  {
  }

  lemma DnatAsHead(f: Front, ip: string)
    ensures DnatRule(f, ip) == ["PREROUTING"] + (["-p"] + (["udp"] + DnatRest(f, ip, Comment(f))))
  {
  }

  lemma DnatOrdered(f: Front, ip: string)
    ensures Ordered(DnatRule(f, ip)) == DnatRule(f, ip)
  {
  }

  lemma ShownRest(f: Front, ip: string, quoted: bool)
    ensures Folded("udp", DnatRest(f, ip, Printed(Comment(f), quoted)), true) == DnatRest(f, ip, Comment(f))
  {
    var c, p := Comment(f), Printed(Comment(f), quoted);
    var a, b := ["--dport", FrontPort(f), "-m", "comment", "--comment"], ["-j", "DNAT", TO_DESTINATION, Target(f, ip)];
    CommentMeant(f, quoted);
    assert IsDigit(FrontPort(f)[0]);
    FoldedAround("udp", a, p, c, b);
    RestParts(f, ip, p);
    RestParts(f, ip, c);
  }

  lemma RestParts(f: Front, ip: string, c: string)
    ensures DnatRest(f, ip, c) == ["--dport", FrontPort(f), "-m", "comment", "--comment"] +
                                  ([c] + ["-j", "DNAT", TO_DESTINATION, Target(f, ip)])
  {
  }

  lemma CommentMeant(f: Front, quoted: bool)
    ensures Meant("--comment", Printed(Comment(f), quoted), true) == Comment(f) && !Special(Comment(f), true)
  {
    assert Comment(f)[0] == 'a';
  }

  lemma NotReordered(x: seq<string>, r: seq<string>)
    requires Ordered(x) == r && |r| >= 5 && r[3] != "-d"
    ensures x == r
  {
  }

  /** A front reads its own address from every line that shows its DNAT rule. */
  lemma OwnDetected(f: Front, ip: string, ws: seq<string>)
    requires IsFront(f) && IsDotted(ip, 3) && IsSaved(ws, DnatRule(f, ip))
    ensures FrontSite(ws, f) != -1 && AddressIn(ws, FrontSite(ws, f)) == ip
  {
    var st := SavedDnat(ws, f, ip);
    OwnSite(f, ip, st);
  }

  /** The AWG 2 and the AWG 3 family never find each other's rules, whatever the labels. */
  lemma FamiliesApart(f: Front, g: Front, ip: string, ws: seq<string>)
    requires IsFront(f) && IsFront(g) && f.Awg2? != g.Awg2? && IsDotted(ip, 3)
    requires IsSaved(ws, DnatRule(g, ip)) || IsSaved(ws, MasqRule(g, ip))
    ensures FrontSite(ws, f) == -1
  {
    DottedChars(ip, 3);
    if IsSaved(ws, MasqRule(g, ip)) {
      MasqLineIgnored(f, g, ip, ws);
    } else {
      var st := SavedDnat(ws, g, ip);
      DnatLineClaimed(f, g, ip, st);
    }
  }

  /** Within a family a front takes another front's rule for its own if and only if its label is a
      prefix of the other label: label `a` answers for the rules of label `ab`. */
  lemma PrefixClaims(f: Front, g: Front, ip: string, ws: seq<string>)
    requires IsFront(f) && IsFront(g) && f.Awg2? == g.Awg2? && IsDotted(ip, 3) && IsSaved(ws, DnatRule(g, ip))
    ensures FrontSite(ws, f) == if f.name <= g.name then FrontSite(ws, g) else -1
    ensures FrontSite(ws, g) != -1 && AddressIn(ws, FrontSite(ws, g)) == ip
  {
    DottedChars(ip, 3);
    var st := SavedDnat(ws, g, ip);
    DnatLineClaimed(f, g, ip, st);
    OwnSite(g, ip, st);
  }

  // ----- the commands of a front -----

  /** The words the agent gives to iptables are the rules themselves. */
  lemma DnatMeant(f: Front, ip: string)
    ensures Meaning(DnatRule(f, ip), false) == DnatRule(f, ip)
  {
    var c := Comment(f);
    assert c[0] == 'a';
    var tail := DnatRest(f, ip, c);
    forall i | 0 <= i < 9
      ensures !Special(tail[i], false)
    {
      RestSpecial(f, ip, c, i);
    }
    FoldedSame("udp", tail, false);
    HeadFolded("", "PREROUTING", "-p", "udp", tail, false);
    DnatAsHead(f, ip);
    DnatOrdered(f, ip);
  }

  function MasqRest(f: Front): seq<string>
  {
    ["--dport", BackendPort(f), "-m", "comment", "--comment", Comment(f), "-j", "MASQUERADE"]
  }

  lemma MasqAsHead(f: Front, ip: string)
    ensures MasqRule(f, ip) == ["POSTROUTING"] + (["-p"] + (["udp"] + (["-d", ip] + MasqRest(f))))
    ensures Ordered(MasqRule(f, ip)) == MasqRule(f, ip)
  {
  }

  lemma AddressPlain(ip: string)
    requires AllAddr(ip)
    ensures !Special(ip, false) && Meant("-d", ip, false) == ip
  {
    if |ip| >= 3 {
      assert IsAddrChar(ip[|ip| - 3]) && ip[|ip| - 3] == ip[|ip| - 3..][0];
    }
    if ip != [] {
      assert IsAddrChar(ip[0]);
    }
  }

  lemma AddressMeant(ip: string, rest: seq<string>)
    requires AllAddr(ip)
    ensures Folded("udp", ["-d", ip] + rest, false) == ["-d", ip] + Folded(ip, rest, false)
  {
    AddressPlain(ip);
    var ws, us := ["-d", ip] + rest, [ip] + rest;
    FoldedFirst("udp", ws, false);
    assert ws[1..] == us && us[1..] == rest;
  }

  lemma MasqRestSame(f: Front, ip: string)
    requires AllAddr(ip)
    ensures Folded(ip, MasqRest(f), false) == MasqRest(f)
  {
    assert IsDigit(BackendPort(f)[0]) && Comment(f)[0] == 'a';
    AddressPlain(ip);
    FoldedSame(ip, MasqRest(f), false);
  }

  lemma MasqMeant(f: Front, ip: string)
    requires AllAddr(ip)
    ensures Meaning(MasqRule(f, ip), false) == MasqRule(f, ip)
  {
    var rest := ["-d", ip] + MasqRest(f);
    MasqRestSame(f, ip);
    AddressMeant(ip, MasqRest(f));
    HeadFolded("", "POSTROUTING", "-p", "udp", rest, false);
    MasqAsHead(f, ip);
  }

  /** A reported address consists of digits and dots. */
  lemma ReportedChars(ls: seq<Line>, f: Front)
    requires FrontDestination(ls, f).Some?
    ensures AllAddr(FrontDestination(ls, f).value)
  {
    var i := FirstSomeAt(FrontReads(ls, f));
    FrontReadAt(ls, f, i);
    GroupsChars(ls[i].words[FrontSite(ls[i].words, f)], 3);
  }
}
