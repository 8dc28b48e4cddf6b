/** Detection ignores the case of the words, except in the plain searches for `--dport`. */
module DetectCase {
  import opened Words
  import opened Ipv4
  import opened RulesText
  import opened Detect

  // ----- digits and addresses have no case -----

  lemma LowerRun(s: string)
    ensures DigitRun(Lower(s)) == DigitRun(s)
  {
    DigitRunIs(Lower(s), DigitRun(s));
  }

  lemma {:induction false} LowerGroups(s: string, k: nat)
    ensures GroupsLen(Lower(s), k) == GroupsLen(s, k)
    decreases k
  {
    LowerRun(s);
    var r := DigitRun(s);
    if k > 0 && r < |s| {
      assert Lower(s)[r + 1..] == Lower(s[r + 1..]);
      assert Lower(s)[r] == LowerChar(s[r]);
      LowerGroups(s[r + 1..], k - 1);
    }
  }

  lemma LowerNet(w: string)
    ensures IsNetWord(Lower(w)) <==> IsNetWord(w)
  {
    LowerGroups(w, 3);
    var n := QuadLen(w);
    if 0 < n < |w| {
      assert Lower(w)[n + 1..] == Lower(w[n + 1..]);
      assert Lower(w)[n] == LowerChar(w[n]);
      LowerRun(w[n + 1..]);
    }
  }

  lemma LowerSnat(w: string)
    ensures IsSnatWord(Lower(w)) <==> IsSnatWord(w)
  {
    assert Lower(Lower(w)) == Lower(w);
    if |w| > 4 {
      assert Lower(w)[4] == LowerChar(w[4]);
    }
  }

  /** What is seen of a word is seen of its lower-case form, except for the exact `--dport`. */
  lemma LowerSeen(w: string)
    ensures See(w).(exactPort := false) == See(Lower(w)).(exactPort := false)
  {
    assert Lower(Lower(w)) == Lower(w);
    LowerRun(w);
    LowerGroups(w, 3);
    LowerNet(w);
    LowerSnat(w);
  }

  lemma SamePrefix(w: string, u: string, n: nat)
    requires Lower(w) == Lower(u) && n <= |w| && AllAddr(w[..n]) && AllAddr(u[..n])
    ensures w[..n] == u[..n]
  {
    forall i | 0 <= i < n
      ensures w[i] == u[i]
    {
      assert Lower(w)[i] == Lower(u)[i];
      assert IsAddrChar(w[..n][i]) && IsAddrChar(u[..n][i]);
    }
  }

  lemma SameNumber(w: string, u: string)
    requires Lower(w) == Lower(u)
    ensures DigitRun(w) == DigitRun(u) && w[..DigitRun(w)] == u[..DigitRun(u)]
  {
    LowerRun(w);
    LowerRun(u);
    SamePrefix(w, u, DigitRun(w));
  }

  lemma SameQuad(w: string, u: string)
    requires Lower(w) == Lower(u) && QuadLen(w) > 0
    ensures QuadLen(u) == QuadLen(w) && u[..QuadLen(w)] == w[..QuadLen(w)]
  {
    LowerGroups(w, 3);
    LowerGroups(u, 3);
    GroupsChars(w, 3);
    GroupsChars(u, 3);
    SamePrefix(w, u, QuadLen(w));
  }

  // ----- rules and texts -----

  /** The words agree up to case, and in whether they end in `--dport` as it is printed. */
  predicate SameWords(ws: seq<string>, us: seq<string>)
  {
    && |ws| == |us|
    && forall i :: 0 <= i < |ws| ==>
         Lower(ws[i]) == Lower(us[i]) && (EndsWith(ws[i], "--dport") <==> EndsWith(us[i], "--dport"))
  }

  predicate SameLine(l: Line, m: Line)
  {
    SameWords(l.words, m.words) && (IsRule(l) <==> IsRule(m))
  }

  lemma SameSeen(ws: seq<string>, us: seq<string>)
    requires SameWords(ws, us)
    ensures SeeAll(ws) == SeeAll(us) && Numbers(ws) == Numbers(us)
  {
    forall i | 0 <= i < |ws|
      ensures SeeAll(ws)[i] == SeeAll(us)[i] && Numbers(ws)[i] == Numbers(us)[i]
    {
      SeenAt(ws, i);
      SeenAt(us, i);
      LowerSeen(ws[i]);
      LowerSeen(us[i]);
      SameNumber(ws[i], us[i]);
    }
  }

  /** Detection reads the same addresses in the same places of both rules. */
  lemma RuleCase(l: Line, m: Line)
    requires SameLine(l, m)
    ensures RuleDnat(l) == RuleDnat(m) && RuleSnat(l) == RuleSnat(m) && (RuleInstalled(l) <==> RuleInstalled(m))
    ensures RuleDnat(l) != -1 ==> DnatAddress(l) == DnatAddress(m)
    ensures RuleSnat(l) != -1 ==> SnatAddress(l) == SnatAddress(m)
  {
    SameSeen(l.words, m.words);
    if RuleDnat(l) != -1 {
      SameQuad(l.words[RuleDnat(l)], m.words[RuleDnat(l)]);
    }
    if RuleSnat(l) != -1 {
      SameQuad(l.words[RuleSnat(l)], m.words[RuleSnat(l)]);
    }
  }

  /** Two texts whose words differ in case alone have the same destination and are installed alike. */
  lemma CaseIgnored(ls: seq<Line>, ms: seq<Line>)
    requires |ls| == |ms| && forall i :: 0 <= i < |ls| ==> SameLine(ls[i], ms[i])
    ensures Found(ls) == Found(ms) && (Installed(ls) <==> Installed(ms))
  {
    forall i | 0 <= i < |ls|
      ensures Reads(ls)[i] == Reads(ms)[i] && (RuleInstalled(ls[i]) <==> RuleInstalled(ms[i]))
    {
      ReadAt(ls, i);
      ReadAt(ms, i);
      RuleCase(ls[i], ms[i]);
    }
    assert Reads(ls) == Reads(ms);
    var i, k := DnatLine(ls), SnatLine(ls);
    if i != -1 {
      RuleCase(ls[i], ms[i]);
    }
    if k != -1 {
      RuleCase(ls[k], ms[k]);
    }
  }
}
