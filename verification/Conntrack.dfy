/** `parse_conntrack_mappings`. */
module Conntrack {
  import opened Common
  import opened Words
  import opened Ipv4

  /** One mapping; the reply part is there when the line has a second tuple. */
  datatype Reply = Reply(destIp: string, destPort: nat, proxyPort: nat)
  datatype Mapping = Mapping(clientIp: string, clientPort: nat, reply: Option<Reply>)

  /** One match of the tuple pattern. */
  datatype Tuple = Tuple(src: string, sport: nat, dport: nat)

  predicate AllDigits(s: string) { s != [] && DigitRun(s) == |s| }

  /** `key=` followed by digits up to the end of the word. */
  predicate IsNumberWord(w: string, key: string)
  {
    key <= w && AllDigits(w[|key|..])
  }

  /** `src=(quad)` from `i` to the end of the word. */
  predicate SrcEnds(w: string, i: int)
  {
    OccursAt(w, i, "src=") && QuadLen(w[i + 4..]) == |w| - i - 4
  }

  /** Where it starts, or -1. */
  function SrcAt(w: string, lo: nat): (i: int)
    ensures i == -1 || (lo <= i && SrcEnds(w, i))
    decreases |w| - lo
  {
    if lo >= |w| then -1 else if SrcEnds(w, lo) then lo else SrcAt(w, lo + 1)
  }

  /** `src=quad\s+dst=quad\s+sport=\d+\s+dport=\d+` starting in word `i`. */
  predicate TupleAt(ws: seq<string>, i: int)
  {
    && 0 <= i && i + 3 < |ws|
    && SrcAt(ws[i], 0) != -1
    && "dst=" <= ws[i + 1] && QuadLen(ws[i + 1][4..]) == |ws[i + 1]| - 4
    && IsNumberWord(ws[i + 2], "sport=")
    && "dport=" <= ws[i + 3] && DigitRun(ws[i + 3][6..]) >= 1
  }

  function TupleOf(ws: seq<string>, i: int): Tuple
    requires TupleAt(ws, i)
  {
    var n := ws[i + 3][6..];
    Tuple(ws[i][SrcAt(ws[i], 0) + 4..], Number(ws[i + 2][6..][..DigitRun(ws[i + 2][6..])]), Number(n[..DigitRun(n)]))
  }

  function TupleFrom(ws: seq<string>, lo: nat): (i: int)
    ensures i == -1 || (lo <= i && TupleAt(ws, i))
    decreases |ws| - lo
  {
    if lo >= |ws| then -1 else if TupleAt(ws, lo) then lo else TupleFrom(ws, lo + 1)
  }

  /** What one line contributes; None for a blank line, a comment or a line without a tuple.  The
      second match may start in the last word of the first. */
  function MappingOf(ws: seq<string>): Option<Mapping>
  {
    if ws == [] || (ws[0] != [] && ws[0][0] == '#') then None
    else
      var i := TupleFrom(ws, 0);
      if i == -1 then None
      else
        var orig, j := TupleOf(ws, i), TupleFrom(ws, i + 3);
        var reply := if j == -1 then None
                     else Some(Reply(TupleOf(ws, j).src, TupleOf(ws, j).sport, orig.dport));
        Some(Mapping(orig.src, orig.sport, reply))
  }

  /** The values given, each at its first appearance. */
  function Firsts<T(==)>(xs: seq<Option<T>>): seq<T>
  {
    if xs == [] then []
    else
      var ms, x := Firsts(xs[..|xs| - 1]), xs[|xs| - 1];
      if x.None? || x.value in ms then ms else ms + [x.value]
  }

  function Contributions(lines: seq<seq<string>>): (r: seq<Option<Mapping>>)
    ensures |r| == |lines|
  {
    if lines == [] then []
    else Contributions(lines[..|lines| - 1]) + [MappingOf(lines[|lines| - 1])]
  }

  lemma {:induction false} ContributionAt(lines: seq<seq<string>>, i: nat)
    requires i < |lines|
    ensures Contributions(lines)[i] == MappingOf(lines[i])
    decreases |lines|
  {
    if i < |lines| - 1 {
      ContributionAt(lines[..|lines| - 1], i);
    }
  }

  lemma {:induction false} ContributionsCat(a: seq<seq<string>>, b: seq<seq<string>>)
    ensures Contributions(a + b) == Contributions(a) + Contributions(b)
    decreases |b|
  {
    if b == [] {
      assert a + b == a;
    } else {
      assert (a + b)[..|a + b| - 1] == a + b[..|b| - 1];
      ContributionsCat(a, b[..|b| - 1]);
    }
  }

  function Mappings(lines: seq<seq<string>>): seq<Mapping> { Firsts(Contributions(lines)) }

  function WithFirst(before: seq<Mapping>, m: Option<Mapping>): seq<Mapping>
  {
    if m.None? || m.value in before then before else before + [m.value]
  }

  lemma FirstsStep(xs: seq<Option<Mapping>>, i: nat)
    requires i < |xs|
    ensures Firsts(xs[..i + 1]) == WithFirst(Firsts(xs[..i]), xs[i])
  {
    assert xs[..i + 1] == xs[..i] + [xs[i]];
    FirstsSnoc(xs[..i], xs[i]);
  }

  /** The loop of `parse_conntrack_mappings`; `seen` holds the keys of the mappings so far. */
  method ParseConntrackMappings(lines: seq<seq<string>>) returns (mappings: seq<Mapping>)
    ensures mappings == Mappings(lines)
  {
    mappings := [];
    var seen: set<Mapping> := {};
    ghost var xs := Contributions(lines);
    for i := 0 to |lines|
      invariant mappings == Firsts(xs[..i])
      invariant forall m :: m in seen <==> m in mappings
    {
      ContributionAt(lines, i);
      FirstsStep(xs, i);
      var m := MappingOf(lines[i]);
      if m.None? {
        continue;
      }
      if m.value in seen {
        continue;
      }
      seen := seen + {m.value};
      mappings := mappings + [m.value];
    }
    assert xs[..|lines|] == xs;
  }

  lemma FirstsSnoc<T>(xs: seq<Option<T>>, x: Option<T>)
    ensures Firsts(xs + [x]) == if x.None? || x.value in Firsts(xs) then Firsts(xs) else Firsts(xs) + [x.value]
  {
    assert (xs + [x])[..|xs|] == xs;
  }

  // ----- first appearances -----

  predicate Distinct<T(==)>(ms: seq<T>)
  {
    forall i, j :: 0 <= i < j < |ms| ==> ms[i] != ms[j]
  }

  lemma {:induction false} FirstsDistinct<T>(xs: seq<Option<T>>)
    ensures Distinct(Firsts(xs))
    ensures forall m :: m in Firsts(xs) <==> Some(m) in xs
  {
    if xs != [] {
      var n := |xs| - 1;
      FirstsDistinct(xs[..n]);
      assert xs == xs[..n] + [xs[n]];
    }
  }

  /** The mappings are pairwise distinct and are exactly those the lines contribute. */
  lemma MappingsDistinct(lines: seq<seq<string>>)
    ensures Distinct(Mappings(lines))
    ensures forall m :: m in Mappings(lines) <==> exists i :: 0 <= i < |lines| && MappingOf(lines[i]) == Some(m)
  {
    var xs := Contributions(lines);
    FirstsDistinct(xs);
    forall i | 0 <= i < |lines|
      ensures xs[i] == MappingOf(lines[i])
    {
      ContributionAt(lines, i);
    }
  }

  /** They come in the order of first appearance: a mapping that first appears in an earlier line
      stands before one that first appears later. */
  lemma {:induction false} FirstsPrefix<T>(xs: seq<Option<T>>, n: nat)
    requires n <= |xs|
    ensures Firsts(xs[..n]) <= Firsts(xs)
    decreases |xs| - n
  {
    if n < |xs| {
      FirstsPrefix(xs, n + 1);
      assert xs[..n + 1][..n] == xs[..n];
    } else {
      assert xs[..n] == xs;
    }
  }

  /** The entries of `ms` that are not in `known`, in order. */
  function Unknown<T(==)>(ms: seq<T>, known: seq<T>): seq<T>
  {
    if ms == [] then []
    else Unknown(ms[..|ms| - 1], known) + if ms[|ms| - 1] in known then [] else [ms[|ms| - 1]]
  }

  lemma {:induction false} UnknownIn<T>(ms: seq<T>, known: seq<T>, m: T)
    ensures m in Unknown(ms, known) <==> m in ms && m !in known
  {
    if ms != [] {
      var n := |ms| - 1;
      UnknownIn(ms[..n], known, m);
      assert ms == ms[..n] + [ms[n]];
    }
  }

  lemma {:induction false} FirstsCat<T>(a: seq<Option<T>>, b: seq<Option<T>>)
    ensures Firsts(a + b) == Firsts(a) + Unknown(Firsts(b), Firsts(a))
    decreases |b|
  {
    if b == [] {
      assert a + b == a;
    } else {
      var c, last := b[..|b| - 1], b[|b| - 1];
      FirstsCat(a, c);
      assert b == c + [last] && a + b == (a + c) + [last];
      FirstsSnoc(a + c, last);
      FirstsSnoc(c, last);
      if last.Some? {
        UnknownIn(Firsts(c), Firsts(a), last.value);
        UnknownSnoc(Firsts(c), last.value, Firsts(a));
        CatStep(Firsts(a), Firsts(c), Unknown(Firsts(c), Firsts(a)), last.value);
      }
    }
  }

  lemma CatStep<T>(a: seq<T>, c: seq<T>, u: seq<T>, x: T)
    requires x in u <==> x in c && x !in a
    ensures (if x in a + u then a + u else a + u + [x]) ==
            a + (if x in c then u else u + if x in a then [] else [x])
  {
  }

  lemma UnknownSnoc<T>(ms: seq<T>, m: T, known: seq<T>)
    ensures Unknown(ms + [m], known) == Unknown(ms, known) + if m in known then [] else [m]
  {
    assert (ms + [m])[..|ms|] == ms;
  }

  /** Parsing two texts joined by a newline gives the first parse followed by the entries of the
      second that the first does not have. */
  lemma ParseConcatenated(a: seq<seq<string>>, b: seq<seq<string>>)
    ensures Mappings(a + b) == Mappings(a) + Unknown(Mappings(b), Mappings(a))
  {
    ContributionsCat(a, b);
    FirstsCat(Contributions(a), Contributions(b));
  }

  // ----- which word goes where -----

  /** The words of one tuple, and what stands in front of and behind it in its first and last word. */
  datatype Shown = Shown(front: string, src: string, dst: string, sport: string, dport: string, behind: string)

  function TupleWords(t: Shown): seq<string>
  {
    [t.front + ("src=" + t.src), "dst=" + t.dst, "sport=" + t.sport, "dport=" + t.dport + t.behind]
  }

  /** Two addresses and two numbers. */
  predicate IsTuple(t: Shown)
  {
    && IsDotted(t.src, 3) && IsDotted(t.dst, 3) && AllDigits(t.sport) && AllDigits(t.dport)
    && (t.behind != [] ==> !IsDigit(t.behind[0]))
  }

  /** And nothing behind them that would start another tuple. */
  predicate IsShown(t: Shown) { IsTuple(t) && SrcAt(t.behind, 0) == -1 }

  lemma {:induction false} SrcIs(w: string, lo: nat, k: nat)
    requires lo <= k && SrcEnds(w, k) && forall i :: lo <= i < k ==> !SrcEnds(w, i)
    ensures SrcAt(w, lo) == k
    decreases k - lo
  {
    if lo < k {
      SrcIs(w, lo + 1, k);
    }
  }

  lemma NotAllQuad(tail: string, k: nat)
    requires k < |tail| && tail[k] == 's'
    ensures QuadLen(tail) != |tail|
  {
    var n := QuadLen(tail);
    if n > 0 {
      assert k < n ==> tail[..n][k] == 's';
      GroupsChars(tail, 3);
    }
  }

  /** An address has none of the letters of a second `src=`. */
  lemma NotBefore(front: string, src: string, i: nat)
    requires i < |front|
    ensures !SrcEnds(front + ("src=" + src), i)
  {
    var w, k := front + ("src=" + src), |front|;
    assert w[k] == 's';
    if i + 4 <= k {
      assert w[i + 4..][k - i - 4] == w[k];
      NotAllQuad(w[i + 4..], k - i - 4);
    } else if i + 4 <= |w| {
      assert w[i..i + 4][k - i] == w[k];
    }
  }

  lemma SrcStarts(front: string, src: string)
    requires IsDotted(src, 3)
    ensures var w := front + ("src=" + src); SrcAt(w, 0) == |front| && w[|front| + 4..] == src
  {
    var w, k := front + ("src=" + src), |front|;
    assert w[k..k + 4] == "src=" && w[k + 4..] == src;
    QuadOfAddress(src, src);
    forall i | 0 <= i < k
      ensures !SrcEnds(w, i)
    {
      NotBefore(front, src, i);
    }
    SrcIs(w, 0, k);
  }

  lemma {:induction false} NoSrcMeans(w: string, lo: nat, i: nat)
    requires SrcAt(w, lo) == -1 && lo <= i
    ensures !SrcEnds(w, i)
    decreases i - lo
  {
    if lo < |w| && lo < i {
      NoSrcMeans(w, lo + 1, i);
    }
  }

  lemma {:induction false} NoSrc(w: string, lo: nat)
    requires forall i :: lo <= i ==> !SrcEnds(w, i)
    ensures SrcAt(w, lo) == -1
    decreases |w| - lo
  {
    if lo < |w| {
      NoSrc(w, lo + 1);
    }
  }

  lemma OccursFirst(w: string, i: int)
    requires OccursAt(w, i, "src=")
    ensures w[i] == 's'
  {
    assert w[i..i + 4][0] == w[i];
  }

  lemma SrcInTail(a: string, b: string, i: int)
    requires |a| <= i && SrcEnds(a + b, i)
    ensures SrcEnds(b, i - |a|)
  {
    var w, k := a + b, i - |a|;
    assert w[i..i + 4] == b[k..k + 4] && w[i + 4..] == b[k + 4..];
  }

  /** `dport=` and digits hold no source. */
  lemma DportHasNoSrc(dport: string, behind: string)
    requires AllDigits(dport) && SrcAt(behind, 0) == -1
    ensures SrcAt("dport=" + dport + behind, 0) == -1
  {
    var a := "dport=" + dport;
    assert forall i :: 0 <= i < |a| ==> a[i] != 's' by {
      assert forall i :: 6 <= i < |a| ==> a[i] == dport[i - 6];
    }
    forall i | 0 <= i && SrcEnds(a + behind, i)
      ensures SrcEnds(behind, i - |a|) && i >= |a|
    {
      OccursFirst(a + behind, i);
      SrcInTail(a, behind, i);
    }
    forall i | 0 <= i
      ensures !SrcEnds(a + behind, i)
    {
      if i >= |a| {
        NoSrcMeans(behind, 0, i - |a|);
      }
    }
    NoSrc(a + behind, 0);
  }

  lemma NumberWord(key: string, n: string)
    requires AllDigits(n)
    ensures (key + n)[|key|..] == n && n[..DigitRun(n)] == n
  {
  }

  lemma DportWord(dport: string, behind: string)
    requires AllDigits(dport) && (behind != [] ==> !IsDigit(behind[0]))
    ensures var n := ("dport=" + dport + behind)[6..]; DigitRun(n) >= 1 && n[..DigitRun(n)] == dport
  {
    var n := dport + behind;
    assert ("dport=" + dport + behind)[6..] == n;
    assert forall i :: 0 <= i < |dport| ==> n[i] == dport[i];
    DigitRunIs(n, |dport|);
  }

  lemma TupleIs(ws: seq<string>, i: nat, t: Shown)
    requires IsShown(t) && i + 4 <= |ws| && ws[i..i + 4] == TupleWords(t)
    ensures TupleAt(ws, i) && TupleOf(ws, i) == Tuple(t.src, Number(t.sport), Number(t.dport))
  {
    var cut := ws[i..i + 4];
    assert ws[i] == cut[0] && ws[i + 1] == cut[1] && ws[i + 2] == cut[2] && ws[i + 3] == cut[3];
    SrcStarts(t.front, t.src);
    assert ws[i + 1][4..] == t.dst;
    QuadOfAddress(t.dst, t.dst);
    NumberWord("sport=", t.sport);
    DportWord(t.dport, t.behind);
  }

  lemma CutAround(w: string, i: int, p: string)
    requires OccursAt(w, i, p)
    ensures w == w[..i] + (p + w[i + |p|..])
  {
    assert w[i..] == w[i..i + |p|] + w[i + |p|..];
  }

  lemma SrcShown(w: string) returns (front: string, src: string)
    requires SrcAt(w, 0) != -1
    ensures w == front + ("src=" + src) && IsDotted(src, 3) && src == w[SrcAt(w, 0) + 4..]
  {
    var k := SrcAt(w, 0);
    front, src := w[..k], w[k + 4..];
    CutAround(w, k, "src=");
    WholeIsDotted(src, 3);
  }

  lemma NumberShown(w: string, key: string)
    requires IsNumberWord(w, key)
    ensures var n := w[|key|..]; w == key + n && AllDigits(n) && n[..DigitRun(n)] == n
  {
  }

  lemma DportShown(w: string) returns (dport: string, behind: string)
    requires "dport=" <= w && DigitRun(w[6..]) >= 1
    ensures w == "dport=" + dport + behind && AllDigits(dport) && (behind != [] ==> !IsDigit(behind[0]))
    ensures dport == w[6..][..DigitRun(w[6..])]
  {
    var n := w[6..];
    var r := DigitRun(n);
    dport, behind := n[..r], n[r..];
    DigitRunIs(dport, r);
    assert w == w[..6] + n && n == dport + behind;
  }

  lemma DstShown(w: string)
    requires "dst=" <= w && QuadLen(w[4..]) == |w| - 4
    ensures w == "dst=" + w[4..] && IsDotted(w[4..], 3)
  {
    WholeIsDotted(w[4..], 3);
  }

  lemma FourWords(ws: seq<string>, i: nat, a: string, b: string, c: string, d: string)
    requires i + 4 <= |ws| && ws[i] == a && ws[i + 1] == b && ws[i + 2] == c && ws[i + 3] == d
    ensures ws[i..i + 4] == [a, b, c, d]
  {
  }

  /** Nothing else is read as a tuple. */
  lemma TupleIsShown(ws: seq<string>, i: nat) returns (t: Shown)
    requires TupleAt(ws, i)
    ensures IsTuple(t) && ws[i..i + 4] == TupleWords(t)
    ensures TupleOf(ws, i) == Tuple(t.src, Number(t.sport), Number(t.dport))
  {
    var front, src := SrcShown(ws[i]);
    var dport, behind := DportShown(ws[i + 3]);
    DstShown(ws[i + 1]);
    NumberShown(ws[i + 2], "sport=");
    t := Shown(front, src, ws[i + 1][4..], ws[i + 2][6..], dport, behind);
    FourWords(ws, i, front + ("src=" + src), "dst=" + t.dst, "sport=" + t.sport, "dport=" + dport + behind);
  }

  lemma {:induction false} TupleFromIs(ws: seq<string>, lo: nat, i: nat)
    requires lo <= i < |ws| && TupleAt(ws, i) && forall j :: lo <= j < i ==> SrcAt(ws[j], 0) == -1
    ensures TupleFrom(ws, lo) == i
    decreases i - lo
  {
    if lo < i {
      TupleFromIs(ws, lo + 1, i);
    }
  }

  lemma {:induction false} NoTuple(ws: seq<string>, lo: nat)
    requires forall j :: lo <= j < |ws| ==> SrcAt(ws[j], 0) == -1
    ensures TupleFrom(ws, lo) == -1
    decreases |ws| - lo
  {
    if lo < |ws| {
      NoTuple(ws, lo + 1);
    }
  }

  predicate NoSources(ws: seq<string>) { forall j :: 0 <= j < |ws| ==> SrcAt(ws[j], 0) == -1 }

  /** The tuple in word `i` reads as what is shown. */
  ghost predicate Reads(ws: seq<string>, i: nat, t: Shown)
  {
    IsShown(t) && TupleAt(ws, i) && TupleOf(ws, i) == Tuple(t.src, Number(t.sport), Number(t.dport))
  }

  lemma TupleReads(ws: seq<string>, i: nat, t: Shown)
    requires IsShown(t) && i + 4 <= |ws| && ws[i..i + 4] == TupleWords(t)
    ensures Reads(ws, i, t) && SrcAt(ws[i + 3], 0) == -1
  {
    TupleIs(ws, i, t);
    assert ws[i + 3] == ws[i..i + 4][3];
    DportHasNoSrc(t.dport, t.behind);
  }

  /** A line is not skipped as blank or as a comment. */
  predicate Counted(ws: seq<string>) { ws != [] && !(ws[0] != [] && ws[0][0] == '#') }

  lemma OneMapping(ws: seq<string>, i: nat, t: Shown)
    requires Counted(ws) && Reads(ws, i, t)
    requires TupleFrom(ws, 0) == i && TupleFrom(ws, i + 3) == -1
    ensures MappingOf(ws) == Some(Mapping(t.src, Number(t.sport), None))
  {
  }

  lemma TwoMapping(ws: seq<string>, i: nat, j: nat, t: Shown, u: Shown)
    requires Counted(ws) && Reads(ws, i, t) && Reads(ws, j, u)
    requires TupleFrom(ws, 0) == i && TupleFrom(ws, i + 3) == j
    ensures MappingOf(ws) ==
            Some(Mapping(t.src, Number(t.sport), Some(Reply(u.src, Number(u.sport), Number(t.dport)))))
  {
  }

  lemma SourceFree(pre: seq<string>, t: seq<string>, rest: seq<string>, j: nat)
    requires NoSources(pre) && j < |pre|
    ensures SrcAt((pre + t + rest)[j], 0) == -1
  {
    assert (pre + t + rest)[j] == pre[j];
  }

  lemma FirstFrom(pre: seq<string>, t: seq<string>, rest: seq<string>)
    requires NoSources(pre) && TupleAt(pre + t + rest, |pre|)
    ensures TupleFrom(pre + t + rest, 0) == |pre|
  {
    var ws := pre + t + rest;
    forall j | 0 <= j < |pre|
      ensures SrcAt(ws[j], 0) == -1
    {
      SourceFree(pre, t, rest, j);
    }
    TupleFromIs(ws, 0, |pre|);
  }

  /** The fields of a line with one tuple among other words: the client is its source. */
  lemma OneTuple(pre: seq<string>, t: Shown, post: seq<string>)
    requires IsShown(t) && NoSources(pre) && NoSources(post) && Counted(pre + TupleWords(t) + post)
    ensures MappingOf(pre + TupleWords(t) + post) == Some(Mapping(t.src, Number(t.sport), None))
  {
    var ws, n := pre + TupleWords(t) + post, |pre|;
    assert ws[n..n + 4] == TupleWords(t);
    TupleReads(ws, n, t);
    FirstFrom(pre, TupleWords(t), post);
    assert ws[n + 4..] == post;
    NoneFrom(ws, n + 3);
    OneMapping(ws, n, t);
  }

  lemma NoneFrom(ws: seq<string>, m: nat)
    requires m < |ws| && SrcAt(ws[m], 0) == -1 && NoSources(ws[m + 1..])
    ensures TupleFrom(ws, m) == -1
  {
    forall j | m <= j < |ws|
      ensures SrcAt(ws[j], 0) == -1
    {
      assert j > m ==> ws[j] == ws[m + 1..][j - m - 1];
    }
    NoTuple(ws, m);
  }

  /** The fields of a line with the original and the reply tuple: client address and port are source and
      source port of the original, the destination is source and source port of the reply, and the proxy
      port is the destination port of the original. */
  lemma TwoTuples(pre: seq<string>, t: Shown, between: seq<string>, u: Shown, post: seq<string>)
    requires IsShown(t) && IsShown(u) && NoSources(pre) && NoSources(between)
    requires Counted(pre + TupleWords(t) + (between + TupleWords(u) + post))
    ensures MappingOf(pre + TupleWords(t) + (between + TupleWords(u) + post)) ==
            Some(Mapping(t.src, Number(t.sport), Some(Reply(u.src, Number(u.sport), Number(t.dport)))))
  {
    var rest := between + TupleWords(u) + post;
    var ws, n, m := pre + TupleWords(t) + rest, |pre|, |pre| + 4 + |between|;
    assert ws[n..n + 4] == TupleWords(t) && ws[m..m + 4] == TupleWords(u) && ws[n + 4..m] == between;
    TupleReads(ws, n, t);
    TupleReads(ws, m, u);
    FirstFrom(pre, TupleWords(t), rest);
    SecondFrom(ws, n, m);
    TwoMapping(ws, n, m, t, u);
  }

  lemma SecondFrom(ws: seq<string>, n: nat, m: nat)
    requires n + 4 <= m < |ws| && TupleAt(ws, m) && SrcAt(ws[n + 3], 0) == -1 && NoSources(ws[n + 4..m])
    ensures TupleFrom(ws, n + 3) == m
  {
    forall j | n + 3 <= j < m
      ensures SrcAt(ws[j], 0) == -1
    {
      assert j > n + 3 ==> ws[j] == ws[n + 4..m][j - n - 4];
    }
    TupleFromIs(ws, n + 3, m);
  }

  /** Lines that are skipped, and lines without a tuple, contribute nothing. */
  lemma NothingContributed(ws: seq<string>)
    requires !Counted(ws) || NoSources(ws)
    ensures MappingOf(ws) == None
  {
    if NoSources(ws) {
      NoTuple(ws, 0);
    }
  }
}
