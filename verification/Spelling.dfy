/** The spellings of one rule: iptables takes, and iptables-save prints, the same rule in several ways. */
module Spelling {
  import opened Words

  predicate InQuotes(w: string) { |w| >= 2 && w[0] == '"' && w[|w| - 1] == '"' }

  /** What word `w` behind word `prev` stands for: a single address may carry the mask /32, and a saved
      comment may be in double quotes.  In a command the quotes are part of the comment. */
  function Meant(prev: string, w: string, saved: bool): string
  {
    if prev == "-d" && EndsWith(w, "/32") then w[..|w| - 3]
    else if saved && prev == "--comment" && InQuotes(w) then w[1..|w| - 1]
    else w
  }

  /** `-p udp` may be followed by `-m udp`. */
  predicate LoadsModule(prev: string, ws: seq<string>)
  {
    prev == "-p" && |ws| >= 3 && ws[1] == "-m" && ws[2] == ws[0]
  }

  function Folded(prev: string, ws: seq<string>, saved: bool): (r: seq<string>)
    ensures |r| <= |ws|
    decreases |ws|
  {
    if ws == [] then []
    else
      var w := Meant(prev, ws[0], saved);
      [w] + Folded(w, if LoadsModule(prev, ws) then ws[3..] else ws[1..], saved)
  }

  /** The destination may stand in front of the protocol. */
  function Ordered(r: seq<string>): (s: seq<string>)
    ensures |s| == |r|
  {
    if |r| >= 5 && r[1] == "-d" && r[3] == "-p" then [r[0], "-p", r[4], "-d", r[2]] + r[5..] else r
  }

  /** The rule that the words, from the chain on, stand for: `saved` as a line of iptables-save, else
      as arguments of iptables. */
  function Meaning(ws: seq<string>, saved: bool): seq<string> { Ordered(Folded("", ws, saved)) }

  /** The rule a saved line `-A ...` shows. */
  function ReadLine(ws: seq<string>): seq<string> { if ws == [] then [] else Meaning(ws[1..], true) }

  // ----- words that stand for themselves -----

  /** The next word may be folded. */
  predicate Special(w: string, saved: bool)
  {
    w == "-p" || w == "-d" || (saved && w == "--comment")
  }

  /** Folding changes nothing behind words that are not special. */
  lemma {:induction false} FoldedSame(prev: string, ws: seq<string>, saved: bool)
    requires !Special(prev, saved) && forall i :: 0 <= i < |ws| - 1 ==> !Special(ws[i], saved)
    ensures Folded(prev, ws, saved) == ws
    decreases |ws|
  {
    if |ws| > 1 {
      FoldedSame(ws[0], ws[1..], saved);
    }
  }

  lemma {:induction false} FoldedPrefix(prev: string, a: seq<string>, b: seq<string>, saved: bool)
    requires a != [] && !Special(prev, saved) && forall i :: 0 <= i < |a| - 1 ==> !Special(a[i], saved)
    ensures Folded(prev, a + b, saved) == a + Folded(a[|a| - 1], b, saved)
    decreases |a|
  {
    FoldedFirst(prev, a + b, saved);
    if |a| == 1 {
      assert (a + b)[1..] == b;
    } else {
      assert (a + b)[1..] == a[1..] + b;
      FoldedPrefix(a[0], a[1..], b, saved);
    }
  }

  /** The first `k` words of a rule are the first `k` words of its spelling if none of them is behind
      a special word. */
  lemma SliceCons<T>(a: seq<T>, k: nat)
    requires 0 < k <= |a|
    ensures a[..k] == [a[0]] + a[1..][..k - 1] && a[1..][k - 1..] == a[k..]
  {
  }

  lemma {:induction false} FoldedStarts(prev: string, ws: seq<string>, saved: bool, r: seq<string>, k: nat)
    requires Folded(prev, ws, saved) == r && k <= |r|
    requires k > 0 ==> !Special(prev, saved)
    requires forall i :: 0 <= i < k - 1 ==> !Special(r[i], saved)
    ensures k <= |ws| && ws[..k] == r[..k]
    ensures Folded(if k == 0 then prev else r[k - 1], ws[k..], saved) == r[k..]
    decreases k
  {
    if k == 0 {
      assert ws[0..] == ws && r[0..] == r;
    } else {
      FoldedFirst(prev, ws, saved);
      FoldedStarts(r[0], ws[1..], saved, r[1..], k - 1);
      SliceCons(ws, k);
      SliceCons(r, k);
    }
  }

  lemma FoldedFirst(prev: string, ws: seq<string>, saved: bool)
    requires ws != [] && !Special(prev, saved)
    ensures Folded(prev, ws, saved) == [ws[0]] + Folded(ws[0], ws[1..], saved)
  {
  }

  /** A rule that starts with chain and protocol. */
  lemma HeadFolded(prev: string, c: string, flag: string, proto: string, rest: seq<string>, saved: bool)
    requires !Special(prev, saved) && !Special(c, saved) && flag == "-p"
    requires !(|rest| >= 2 && rest[0] == "-m" && rest[1] == proto)
    ensures Folded(prev, [c] + ([flag] + ([proto] + rest)), saved) ==
            [c] + ([flag] + ([proto] + Folded(proto, rest, saved)))
  {
    var ws := [proto] + rest;
    FoldedProto(proto, rest, saved);
    FoldedCons(flag, c, ws, saved);
    FoldedCons(c, prev, [flag] + ws, saved);
  }

  lemma FoldedCons(w: string, prev: string, ws: seq<string>, saved: bool)
    requires !Special(prev, saved)
    ensures Folded(prev, [w] + ws, saved) == [w] + Folded(w, ws, saved)
  {
    assert ([w] + ws)[1..] == ws;
  }

  /** Both spellings of chain and protocol. */
  lemma HeadFoldedEither(prev: string, c: string, flag: string, proto: string, loads: bool,
      rest: seq<string>, saved: bool)
    requires !Special(prev, saved) && !Special(c, saved) && flag == "-p" && (rest != [] ==> rest[0] != "-m")
    ensures Folded(prev, [c] + ([flag] + ((if loads then [proto, "-m", proto] else [proto]) + rest)), saved) ==
            [c] + ([flag] + ([proto] + Folded(proto, rest, saved)))
  {
    var us := (if loads then [proto, "-m", proto] else [proto]) + rest;
    FoldedModule(proto, rest, saved);
    FoldedProto(proto, rest, saved);
    FoldedCons(flag, c, us, saved);
    FoldedCons(c, prev, [flag] + us, saved);
  }

  /** A comment `c`, printed as `p`, between words that stand for themselves. */
  lemma FoldedAround(prev: string, a: seq<string>, p: string, c: string, b: seq<string>)
    requires a != [] && a[|a| - 1] == "--comment" && Meant("--comment", p, true) == c && !Special(c, true)
    requires !Special(prev, true) && forall i :: 0 <= i < |a| - 1 ==> !Special(a[i], true)
    requires forall i :: 0 <= i < |b| - 1 ==> !Special(b[i], true)
    ensures Folded(prev, a + ([p] + b), true) == a + ([c] + b)
  {
    FoldedPrefix(prev, a, [p] + b, true);
    FoldedSame(c, b, true);
    assert ([p] + b)[1..] == b;
  }

  lemma FoldedModule(proto: string, rest: seq<string>, saved: bool)
    ensures Folded("-p", [proto, "-m", proto] + rest, saved) == [proto] + Folded(proto, rest, saved)
  {
    assert ([proto, "-m", proto] + rest)[3..] == rest;
  }

  lemma FoldedProto(proto: string, rest: seq<string>, saved: bool)
    requires !(|rest| >= 2 && rest[0] == "-m" && rest[1] == proto)
    ensures Folded("-p", [proto] + rest, saved) == [proto] + Folded(proto, rest, saved)
  {
    assert ([proto] + rest)[1..] == rest;
  }

  /** The spellings of such a rule: the protocol may be followed by its module. */
  lemma HeadSpelled(prev: string, ws: seq<string>, c: string, flag: string, proto: string, r: seq<string>)
    returns (rest: seq<string>, loads: bool)
    requires !Special(prev, true) && !Special(c, true) && flag == "-p"
    requires Folded(prev, ws, true) == [c] + ([flag] + ([proto] + r))
    ensures ws == [c] + ([flag] + ((if loads then [proto, "-m", proto] else [proto]) + rest))
    ensures Folded(proto, rest, true) == r
  {
    var us := ConsSpelled(prev, ws, c, [flag] + ([proto] + r));
    var vs := ConsSpelled(c, us, flag, [proto] + r);
    rest, loads := ProtoSpelled(vs, proto, r);
  }

  lemma ConsSpelled(prev: string, ws: seq<string>, w: string, r: seq<string>) returns (us: seq<string>)
    requires !Special(prev, true) && Folded(prev, ws, true) == [w] + r
    ensures ws == [w] + us && Folded(w, us, true) == r
  {
    assert ws != [];
    FoldedFirst(prev, ws, true);
    us := ws[1..];
    var x := [ws[0]] + Folded(ws[0], us, true);
    assert x[0] == w && x[1..] == r;
  }

  lemma ProtoSpelled(ws: seq<string>, proto: string, r: seq<string>) returns (rest: seq<string>, loads: bool)
    requires Folded("-p", ws, true) == [proto] + r
    ensures ws == (if loads then [proto, "-m", proto] else [proto]) + rest
    ensures Folded(proto, rest, true) == r
  {
    loads := LoadsModule("-p", ws);
    rest := if loads then ws[3..] else ws[1..];
    var x := Folded("-p", ws, true);
    assert x == [ws[0]] + Folded(ws[0], rest, true);
    assert x[0] == proto && x[1..] == r;
    if loads {
      assert ws == [ws[0], ws[1], ws[2]] + ws[3..];
    }
  }

  // ----- what folding keeps -----

  predicate Any(ws: seq<string>, p: string -> bool)
  {
    exists i :: 0 <= i < |ws| && p(ws[i])
  }

  /** The property does not look at masks and quotes, and `-m` does not have it. */
  ghost predicate Blind(p: string -> bool, saved: bool)
  {
    !p("-m") && forall prev, w :: p(Meant(prev, w, saved)) == p(w)
  }

  lemma AnyCons(w: string, ws: seq<string>, p: string -> bool)
    ensures Any([w] + ws, p) <==> p(w) || Any(ws, p)
  {
    if Any(ws, p) {
      var i :| 0 <= i < |ws| && p(ws[i]);
      assert ([w] + ws)[i + 1] == ws[i];
    }
    if p(w) {
      assert ([w] + ws)[0] == w;
    }
  }

  lemma {:induction false} AnyFolded(prev: string, ws: seq<string>, saved: bool, p: string -> bool)
    requires Blind(p, saved)
    ensures Any(Folded(prev, ws, saved), p) <==> Any(ws, p)
    decreases |ws|
  {
    if ws != [] {
      var w := Meant(prev, ws[0], saved);
      var rest := if LoadsModule(prev, ws) then ws[3..] else ws[1..];
      AnyFolded(w, rest, saved, p);
      AnyCons(w, Folded(w, rest, saved), p);
      assert ws == [ws[0]] + ws[1..];
      AnyCons(ws[0], ws[1..], p);
      if LoadsModule(prev, ws) {
        assert ws[1..] == [ws[1]] + ([ws[2]] + ws[3..]);
        AnyCons(ws[1], [ws[2]] + ws[3..], p);
        AnyCons(ws[2], ws[3..], p);
      }
    }
  }

  lemma AnyOrdered(r: seq<string>, p: string -> bool)
    ensures Any(Ordered(r), p) <==> Any(r, p)
  {
    var s := Ordered(r);
    if s != r {
      assert s[0] == r[0] && s[1] == r[3] && s[2] == r[4] && s[3] == r[1] && s[4] == r[2];
      assert forall i :: 5 <= i < |r| ==> s[i] == r[i];
    }
  }

  lemma AnyMeant(ws: seq<string>, saved: bool, p: string -> bool)
    requires Blind(p, saved)
    ensures Any(Meaning(ws, saved), p) <==> Any(ws, p)
  {
    AnyFolded("", ws, saved, p);
    AnyOrdered(Folded("", ws, saved), p);
  }

  // ----- quotes -----

  function HasQuote(): string -> bool { (w: string) => '"' in w }

  /** No word has a double quote. */
  predicate Unquoted(ws: seq<string>) { !Any(ws, HasQuote()) }

  lemma QuoteBlind()
    ensures Blind(HasQuote(), false)
  {
    forall prev, w
      ensures HasQuote()(Meant(prev, w, false)) == HasQuote()(w)
    {
      if prev == "-d" && EndsWith(w, "/32") {
        assert w == w[..|w| - 3] + "/32";
      }
    }
  }

  /** Arguments stand for a rule with a double quote exactly if they have one. */
  lemma QuotesMeant(ws: seq<string>)
    ensures Unquoted(Meaning(ws, false)) <==> Unquoted(ws)
  {
    QuoteBlind();
    AnyMeant(ws, false, HasQuote());
  }

  /** A line without quotes means the same as saved line and as arguments. */
  lemma {:induction false} FoldedUnquoted(prev: string, ws: seq<string>)
    requires Unquoted(ws)
    ensures Folded(prev, ws, true) == Folded(prev, ws, false)
    decreases |ws|
  {
    if ws != [] {
      assert !HasQuote()(ws[0]);
      var rest := if LoadsModule(prev, ws) then ws[3..] else ws[1..];
      assert Unquoted(rest) by {
        forall i | 0 <= i < |rest|
          ensures !HasQuote()(rest[i])
        {
          assert rest[i] == ws[i + |ws| - |rest|];
        }
      }
      FoldedUnquoted(Meant(prev, ws[0], true), rest);
    }
  }
}
