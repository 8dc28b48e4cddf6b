/** The text of `iptables-save` and the DESTINATION rewrite on it. */
module RulesText {
  import opened Common
  import opened Words
  import opened Ipv4

  /** One line: leading white space, then words, each followed by its separator. */
  datatype Line = Line(lead: string, words: seq<string>, seps: seq<string>)

  /** Newline-separated text; `newline` says whether it ends with one. */
  datatype Text = Text(lines: seq<Line>, newline: bool)

  const TO_DESTINATION := "--to-destination"
  const DEST_FLAG := "-d"

  predicate IsWord(w: string) { w != [] && NoSpace(w) }

  predicate IsLine(l: Line)
  {
    && AllSpace(l.lead)
    && |l.words| == |l.seps|
    && (forall i :: 0 <= i < |l.words| ==> IsWord(l.words[i]))
    && (forall i :: 0 <= i < |l.seps| ==> AllSpace(l.seps[i]))
    && (forall i :: 0 <= i < |l.seps| - 1 ==> l.seps[i] != [])
  }

  /** `line.strip().startswith("-A ")`. */
  predicate IsRule(l: Line)
  {
    |l.words| >= 2 && |l.seps| >= 2 && l.words[0] == "-A" && l.seps[0] != [] && l.seps[0][0] == ' '
  }

  predicate NameAt(w: string, p: int, ip: string)
  {
    && OccursAt(w, p, ip)
    && (p == 0 || !IsDigit(w[p - 1]))
    && (p + |ip| == |w| || !IsDigit(w[p + |ip|]))
  }

  predicate WordNames(w: string, ip: string)
  {
    exists p :: 0 <= p <= |w| && NameAt(w, p, ip)
  }

  /** `_ipv4_in_line`: an address has no white space, so it lies inside one word. */
  predicate Names(ws: seq<string>, ip: string)
  {
    exists i :: 0 <= i < |ws| && WordNames(ws[i], ip)
  }

  // ----- one substitution, `re.sub(rf"({key}\s+){old}(?!\d)(tail)?", rf"\g<1>{new}\2", line)` -----

  function Subst(hit: bool, w: string, prev: string, next: string): string
  {
    if hit && AddrAt(w, prev) then next + w[|prev|..] else w
  }

  /** On words: a word is replaced when it starts with the address and the word before ends in `key`. */
  function Pass(hit: bool, ws: seq<string>, key: string, prev: string, next: string): (r: seq<string>)
    ensures |r| == |ws|
    decreases |ws|
  {
    if ws == [] then []
    else [Subst(hit, ws[0], prev, next)] + Pass(EndsWith(ws[0], key), ws[1..], key, prev, next)
  }

  /** Both substitutions of `rewrite_destination_rules`, in the source's order. */
  function RewriteWords(ws: seq<string>, prev: string, next: string): (r: seq<string>)
    ensures |r| == |ws|
  {
    Pass(false, Pass(false, ws, TO_DESTINATION, prev, next), DEST_FLAG, prev, next)
  }

  function RewriteLine(l: Line, prev: string, next: string): Line
  {
    if IsRule(l) && Names(l.words, prev) then l.(words := RewriteWords(l.words, prev, next)) else l
  }

  function RewriteLines(ls: seq<Line>, prev: string, next: string): (r: seq<Line>)
    ensures |r| == |ls|
    ensures forall i :: 0 <= i < |ls| ==> r[i] == RewriteLine(ls[i], prev, next)
  {
    seq(|ls|, i requires 0 <= i < |ls| => RewriteLine(ls[i], prev, next))
  }

  function RewriteText(t: Text, prev: string, next: string): Text
  {
    if prev == next then t else t.(lines := RewriteLines(t.lines, prev, next))
  }

  /** `rewrite_destination_rules`; None where the source raises ValueError. */
  method RewriteDestinationRules(t: Text, oldIp: string, newIp: string) returns (r: Option<Text>)
    ensures r.Some? <==> ParseIpv4(oldIp).Some? && ParseIpv4(newIp).Some?
    ensures r.Some? ==> r.value == RewriteText(t, ParseIpv4(oldIp).value, ParseIpv4(newIp).value)
  {
    var prev, next := ParseIpv4(oldIp), ParseIpv4(newIp);
    if prev.None? || next.None? {
      return None;
    }
    if prev == next {
      return Some(t);
    }
    var out: seq<Line> := [];
    for i := 0 to |t.lines|
      invariant out == RewriteLines(t.lines, prev.value, next.value)[..i]
    {
      var line := t.lines[i];
      if IsRule(line) && Names(line.words, prev.value) {
        line := line.(words := Pass(false, line.words, TO_DESTINATION, prev.value, next.value));
        line := line.(words := Pass(false, line.words, DEST_FLAG, prev.value, next.value));
      }
      out := out + [line];
    }
    return Some(Text(out, t.newline));
  }

  // ----- the pointwise form of the rewrite -----

  predicate IsDestKey(w: string) { EndsWith(w, TO_DESTINATION) || EndsWith(w, DEST_FLAG) }

  predicate IsSite(ws: seq<string>, i: int, ip: string)
  {
    0 < i < |ws| && IsDestKey(ws[i - 1]) && AddrAt(ws[i], ip)
  }

  /** Some rule of the text has `ip` as a destination. */
  predicate HasSite(ws: seq<string>, ip: string)
  {
    exists i :: 0 <= i < |ws| && IsSite(ws, i, ip)
  }

  lemma {:induction false} PassAt(hit: bool, ws: seq<string>, key: string, prev: string, next: string, i: nat)
    requires i < |ws|
    ensures Pass(hit, ws, key, prev, next)[i] ==
            Subst(if i == 0 then hit else EndsWith(ws[i - 1], key), ws[i], prev, next)
    decreases i
  {
    if i > 0 {
      PassAt(EndsWith(ws[0], key), ws[1..], key, prev, next, i - 1);
    }
  }

  lemma SubstKeepsEnding(hit: bool, w: string, prev: string, next: string, key: string)
    requires IsDotted(prev, 3) && IsDotted(next, 3)
    requires key != [] && !IsAddrChar(key[0])
    ensures EndsWith(Subst(hit, w, prev, next), key) == EndsWith(w, key)
  {
    DottedChars(prev, 3);
    DottedChars(next, 3);
    if hit && AddrAt(w, prev) {
      assert w == prev + w[|prev|..];
      TailKeepsEnding(prev, next, w[|prev|..], key);
    }
  }

  /** A replaced word starts with the new address and no other. */
  lemma SubstAddr(w: string, prev: string, next: string)
    requires IsDotted(prev, 3) && IsDotted(next, 3) && AddrAt(w, prev)
    ensures AddrAt(Subst(true, w, prev, next), next)
    ensures AddrAt(Subst(true, w, prev, next), prev) ==> prev == next
    ensures Subst(true, Subst(true, w, prev, next), next, prev) == w
  {
    var v := Subst(true, w, prev, next);
    assert v[|next|..] == w[|prev|..];
    assert AddrAt(v, next);
    assert w == prev + w[|prev|..];
    if AddrAt(v, prev) {
      AddressUnique(v, prev, next);
    }
  }

  lemma KeysExclude(w: string)
    ensures !(EndsWith(w, TO_DESTINATION) && EndsWith(w, DEST_FLAG))
  {
    if EndsWith(w, TO_DESTINATION) {
      assert w[|w| - 1] == w[|w| - |TO_DESTINATION|..][|TO_DESTINATION| - 1] == 'n';
      if |w| >= 2 {
        assert w[|w| - 2..][1] == w[|w| - 1];
      }
    }
  }

  /** The two passes together replace exactly the sites. */
  lemma RewriteAt(ws: seq<string>, prev: string, next: string, i: nat)
    requires IsDotted(prev, 3) && IsDotted(next, 3) && i < |ws|
    ensures RewriteWords(ws, prev, next)[i] == Subst(IsSite(ws, i, prev), ws[i], prev, next)
  {
    var mid := Pass(false, ws, TO_DESTINATION, prev, next);
    PassAt(false, ws, TO_DESTINATION, prev, next, i);
    PassAt(false, mid, DEST_FLAG, prev, next, i);
    if i > 0 {
      KeysExclude(ws[i - 1]);
      PassAt(false, ws, TO_DESTINATION, prev, next, i - 1);
      SubstKeepsEnding(if i == 1 then false else EndsWith(ws[i - 2], TO_DESTINATION), ws[i - 1], prev, next, DEST_FLAG);
    }
  }

  /** Whether a word ends in a given literal is not changed by the rewrite. */
  lemma RewriteKeepsEnding(ws: seq<string>, prev: string, next: string, i: nat, key: string)
    requires IsDotted(prev, 3) && IsDotted(next, 3) && i < |ws|
    requires key != [] && !IsAddrChar(key[0])
    ensures EndsWith(RewriteWords(ws, prev, next)[i], key) == EndsWith(ws[i], key)
  {
    RewriteAt(ws, prev, next, i);
    SubstKeepsEnding(IsSite(ws, i, prev), ws[i], prev, next, key);
  }

  lemma RewriteKeepsKeys(ws: seq<string>, prev: string, next: string, i: nat)
    requires IsDotted(prev, 3) && IsDotted(next, 3) && i < |ws|
    ensures IsDestKey(RewriteWords(ws, prev, next)[i]) == IsDestKey(ws[i])
  {
    RewriteKeepsEnding(ws, prev, next, i, TO_DESTINATION);
    RewriteKeepsEnding(ws, prev, next, i, DEST_FLAG);
  }

  /** Where the destinations of the rewritten line are. */
  lemma SitesAfter(ws: seq<string>, prev: string, next: string, i: nat)
    requires IsDotted(prev, 3) && IsDotted(next, 3) && prev != next && i < |ws|
    ensures !IsSite(RewriteWords(ws, prev, next), i, prev)
    ensures IsSite(RewriteWords(ws, prev, next), i, next) <==> IsSite(ws, i, prev) || IsSite(ws, i, next)
  {
    RewriteAt(ws, prev, next, i);
    if i > 0 {
      RewriteKeepsKeys(ws, prev, next, i - 1);
    }
    if IsSite(ws, i, prev) {
      SubstAddr(ws[i], prev, next);
    }
  }

  lemma SiteIsNamed(ws: seq<string>, i: int, ip: string)
    requires IsSite(ws, i, ip)
    ensures Names(ws, ip)
  {
    assert NameAt(ws[i], 0, ip);
    assert WordNames(ws[i], ip);
  }

  /** The whole-address guard in front of the substitutions never suppresses a replacement. */
  lemma GuardNeverSuppresses(l: Line, prev: string, next: string)
    requires IsDotted(prev, 3) && IsDotted(next, 3) && IsRule(l)
    ensures RewriteLine(l, prev, next) == l.(words := RewriteWords(l.words, prev, next))
  {
    if !Names(l.words, prev) {
      forall i | 0 <= i < |l.words|
        ensures RewriteWords(l.words, prev, next)[i] == l.words[i]
      {
        RewriteAt(l.words, prev, next, i);
        if IsSite(l.words, i, prev) {
          SiteIsNamed(l.words, i, prev);
        }
      }
      assert RewriteWords(l.words, prev, next) == l.words;
    }
  }

  lemma WordsIdempotent(ws: seq<string>, prev: string, next: string)
    requires IsDotted(prev, 3) && IsDotted(next, 3) && prev != next
    ensures RewriteWords(RewriteWords(ws, prev, next), prev, next) == RewriteWords(ws, prev, next)
  {
    var once := RewriteWords(ws, prev, next);
    forall i | 0 <= i < |ws|
      ensures RewriteWords(once, prev, next)[i] == once[i]
    {
      SitesAfter(ws, prev, next, i);
      RewriteAt(once, prev, next, i);
    }
  }

  lemma WordsRestored(ws: seq<string>, prev: string, next: string)
    requires IsDotted(prev, 3) && IsDotted(next, 3) && prev != next
    requires !HasSite(ws, next)
    ensures RewriteWords(RewriteWords(ws, prev, next), next, prev) == ws
  {
    var there := RewriteWords(ws, prev, next);
    forall i | 0 <= i < |ws|
      ensures RewriteWords(there, next, prev)[i] == ws[i]
    {
      SitesAfter(ws, prev, next, i);
      RewriteAt(ws, prev, next, i);
      RewriteAt(there, next, prev, i);
      assert !IsSite(ws, i, next);
      if IsSite(ws, i, prev) {
        SubstAddr(ws[i], prev, next);
      }
    }
  }

  lemma RewriteKeepsRules(l: Line, prev: string, next: string)
    requires IsDotted(prev, 3) && IsDotted(next, 3)
    ensures IsRule(RewriteLine(l, prev, next)) == IsRule(l)
  {
    if IsRule(l) {
      RewriteAt(l.words, prev, next, 0);
    }
  }

  /** No rule of the text has `ip` as a destination. */
  predicate NotADestination(t: Text, ip: string)
  {
    forall i :: 0 <= i < |t.lines| && IsRule(t.lines[i]) ==> !HasSite(t.lines[i].words, ip)
  }

  /** Rewriting twice is rewriting once. */
  lemma RewriteIdempotent(t: Text, prev: string, next: string)
    requires IsDestination(prev) && IsDestination(next)
    ensures RewriteText(RewriteText(t, prev, next), prev, next) == RewriteText(t, prev, next)
  {
    if prev != next {
      var once := RewriteText(t, prev, next);
      forall i | 0 <= i < |t.lines|
        ensures RewriteLine(once.lines[i], prev, next) == once.lines[i]
      {
        var l := t.lines[i];
        RewriteKeepsRules(l, prev, next);
        if IsRule(l) {
          GuardNeverSuppresses(l, prev, next);
          GuardNeverSuppresses(once.lines[i], prev, next);
          WordsIdempotent(l.words, prev, next);
        }
      }
      assert RewriteText(once, prev, next).lines == once.lines;
    }
  }

  lemma RewriteBackRestoresText(t: Text, prev: string, next: string)
    requires IsDestination(prev) && IsDestination(next)
    requires NotADestination(t, next)
    ensures RewriteText(RewriteText(t, prev, next), next, prev) == t
  {
    if prev != next {
      var there := RewriteText(t, prev, next);
      forall i | 0 <= i < |t.lines|
        ensures RewriteLine(there.lines[i], next, prev) == t.lines[i]
      {
        var l := t.lines[i];
        RewriteKeepsRules(l, prev, next);
        if IsRule(l) {
          GuardNeverSuppresses(l, prev, next);
          GuardNeverSuppresses(there.lines[i], next, prev);
          WordsRestored(l.words, prev, next);
        }
      }
      assert RewriteText(there, next, prev).lines == t.lines;
    }
  }

  lemma RewriteBackLosesText(t: Text, prev: string, next: string)
    requires IsDestination(prev) && IsDestination(next) && prev != next
    requires !NotADestination(t, next)
    ensures RewriteText(RewriteText(t, prev, next), next, prev) != t
  {
    var i :| 0 <= i < |t.lines| && IsRule(t.lines[i]) && HasSite(t.lines[i].words, next);
    var l := t.lines[i];
    var j :| 0 <= j < |l.words| && IsSite(l.words, j, next);
    var there := RewriteLine(l, prev, next);
    RewriteKeepsRules(l, prev, next);
    GuardNeverSuppresses(l, prev, next);
    GuardNeverSuppresses(there, next, prev);
    SitesAfter(l.words, prev, next, j);
    SitesAfter(there.words, next, prev, j);
    assert RewriteText(RewriteText(t, prev, next), next, prev).lines[i] == RewriteLine(there, next, prev);
  }

  /** Rewriting back restores the exact text if and only if the new address was not already a
      destination of some rule: such a rule is turned into one for the old address on the way back. */
  lemma RewriteBackRestores(t: Text, prev: string, next: string)
    requires IsDestination(prev) && IsDestination(next) && prev != next
    ensures RewriteText(RewriteText(t, prev, next), next, prev) == t <==> NotADestination(t, next)
  {
    if NotADestination(t, next) {
      RewriteBackRestoresText(t, prev, next);
    } else {
      RewriteBackLosesText(t, prev, next);
    }
  }

  /** A word whose address continues with a digit, such as 10.0.0.10 against 10.0.0.1, and every
      other word that is not exactly the old destination keep all their characters. */
  lemma NeighbourUntouched(ws: seq<string>, prev: string, next: string, i: nat)
    requires IsDestination(prev) && IsDestination(next) && i < |ws|
    requires exists other :: IsDotted(other, 3) && other != prev && AddrAt(ws[i], other)
    ensures RewriteWords(ws, prev, next)[i] == ws[i]
  {
    var other :| IsDotted(other, 3) && other != prev && AddrAt(ws[i], other);
    RewriteAt(ws, prev, next, i);
    if IsSite(ws, i, prev) {
      AddressUnique(ws[i], prev, other);
    }
  }

  // ----- what the whole-address test finds -----

  function Dots(s: string): nat
  {
    if s == [] then 0 else (if s[0] == '.' then 1 else 0) + Dots(s[1..])
  }

  lemma {:induction false} DotsCat(a: string, b: string)
    ensures Dots(a + b) == Dots(a) + Dots(b)
  {
    if a == [] {
      assert a + b == b;
    } else {
      assert (a + b)[1..] == a[1..] + b;
      DotsCat(a[1..], b);
    }
  }

  lemma {:induction false} NoDots(s: string)
    requires forall i :: 0 <= i < |s| ==> IsDigit(s[i])
    ensures Dots(s) == 0
  {
    if s != [] {
      NoDots(s[1..]);
    }
  }

  lemma {:induction false} DottedDots(s: string, k: nat)
    requires IsDotted(s, k)
    ensures Dots(s) == k
  {
    var r := DigitRun(s);
    NoDots(s[..r]);
    if k > 0 {
      assert s == s[..r] + s[r..] && s[r..][1..] == s[r + 1..];
      DotsCat(s[..r], s[r..]);
      DottedDots(s[r + 1..], k - 1);
    } else {
      assert s[..r] == s;
    }
  }

  lemma DotsInside(w: string, p: nat, ip: string)
    requires OccursAt(w, p, ip)
    ensures Dots(w[p..]) >= Dots(ip)
  {
    assert w[p..] == ip + w[p + |ip|..] by {
      assert w[p..p + |ip|] == ip;
    }
    DotsCat(ip, w[p + |ip|..]);
  }

  lemma {:induction false} DotsShrink(w: string, i: nat, j: nat)
    requires i <= j <= |w|
    ensures Dots(w[j..]) <= Dots(w[i..])
  {
    assert w[i..] == w[i..j] + w[j..];
    DotsCat(w[i..j], w[j..]);
  }

  /** Behind the first group and its dot there are only two dots left. */
  lemma TwoDotsLeft(a: string, rest: string)
    requires IsDotted(a, 3) && Dots(rest) == 0
    ensures DigitRun(a) < |a| && Dots((a + rest)[DigitRun(a) + 1..]) == 2
  {
    var r := DigitRun(a);
    DottedDots(a[r + 1..], 2);
    assert (a + rest)[r + 1..] == a[r + 1..] + rest;
    DotsCat(a[r + 1..], rest);
  }

  /** An address is not found behind the first group of another one. */
  lemma NamedAtStart(a: string, rest: string, ip: string, p: nat)
    requires IsDotted(a, 3) && IsDotted(ip, 3) && Dots(rest) == 0
    requires p <= |a + rest| && NameAt(a + rest, p, ip)
    ensures p == 0
  {
    var w, r := a + rest, DigitRun(a);
    DottedDots(ip, 3);
    DotsInside(w, p, ip);
    TwoDotsLeft(a, rest);
    assert forall i :: 0 <= i < |a| ==> w[i] == a[i];
    if p > r {
      DotsShrink(w, r + 1, p);
    }
  }

  /** The test finds an address exactly where it stands, with its port or mask behind it: 10.0.0.1 neither in
      10.0.0.10 nor in 110.0.0.1. */
  lemma NamesOnlyItself(a: string, rest: string, ip: string)
    requires IsDotted(a, 3) && IsDotted(ip, 3) && Dots(rest) == 0 && (rest != [] ==> !IsDigit(rest[0]))
    ensures WordNames(a + rest, ip) <==> a == ip
  {
    var w := a + rest;
    if WordNames(w, ip) {
      var p :| 0 <= p <= |w| && NameAt(w, p, ip);
      NamedAtStart(a, rest, ip, p);
      assert w[0..|ip|] == ip;
      AddressUnique(w, a, ip);
    }
    if a == ip {
      assert w[0..|ip|] == ip;
      assert NameAt(w, 0, ip);
    }
  }
}
