/** `re.sub` on characters, and the proof that on a line it is the word-by-word substitution. */
module Substitution {
  import opened Words
  import opened Ipv4
  import opened RulesText

  /** The characters of a line. */
  function Chars(ws: seq<string>, seps: seq<string>): string
    requires |ws| == |seps|
  {
    if ws == [] then "" else ws[0] + seps[0] + Chars(ws[1..], seps[1..])
  }

  /** `{key}\s+{prev}(?!\d)` at the start of `s`. */
  predicate Matches(s: string, key: string, prev: string)
  {
    && key <= s
    && var k := SpaceRun(s[|key|..]);
       k >= 1 && AddrAt(s[|key| + k..], prev)
  }

  /** Scan from the left; a match keeps everything up to the address and goes on behind it.  The
      optional `:port` or `/mask` group is copied unchanged, so it is part of what follows. */
  function ReSub(s: string, key: string, prev: string, next: string): string
    decreases |s|
  {
    if s == [] then ""
    else if prev != [] && Matches(s, key, prev) then
      var n := |key| + SpaceRun(s[|key|..]);
      s[..n] + next + ReSub(s[n + |prev|..], key, prev, next)
    else [s[0]] + ReSub(s[1..], key, prev, next)
  }

  /** Words and separators of a line, where the first word may be what is left of one. */
  predicate Parts(ws: seq<string>, seps: seq<string>)
  {
    && |ws| == |seps|
    && (forall i :: 0 <= i < |ws| ==> NoSpace(ws[i]) && AllSpace(seps[i]))
    && (forall i :: 1 <= i < |ws| ==> ws[i] != [])
    && (forall i :: 0 <= i < |seps| - 1 ==> seps[i] != [])
  }

  predicate IsKey(key: string) { key != [] && key[0] == '-' && NoSpace(key) }

  /** The text behind a word and its separator starts with the next word or is empty. */
  lemma CharsHead(ws: seq<string>, seps: seq<string>)
    requires Parts(ws, seps) && (ws != [] ==> ws[0] != [])
    ensures Chars(ws, seps) == [] <==> ws == []
    ensures ws != [] ==> !IsSpace(Chars(ws, seps)[0])
  {
    if ws != [] {
      assert Chars(ws, seps)[0] == ws[0][0];
    }
  }

  /** An address at the start of a word and what follows it lies inside the word. */
  lemma AddrInWord(w: string, rest: string, ip: string)
    requires IsDotted(ip, 3) && (rest != [] ==> IsSpace(rest[0]))
    ensures AddrAt(w + rest, ip) <==> AddrAt(w, ip)
  {
    DottedChars(ip, 3);
    var s := w + rest;
    if |ip| <= |w| {
      assert s[..|ip|] == w[..|ip|];
    } else if |ip| <= |s| {
      assert s[..|ip|][|w|] == rest[0];
    }
  }

  /** A word, its separator and the text behind it, as the scan meets them. */
  predicate AtWord(w: string, sep: string, tail: string)
  {
    && NoSpace(w) && AllSpace(sep)
    && (tail != [] ==> sep != [] && !IsSpace(tail[0]))
  }

  /** The word is the key: what decides is the text behind the separator. */
  lemma MatchAtKey(sep: string, tail: string, key: string, prev: string)
    requires AtWord(key, sep, tail) && IsKey(key) && IsDotted(prev, 3)
    ensures Matches(key + sep + tail, key, prev) <==> AddrAt(tail, prev)
    ensures SpaceRun((key + sep + tail)[|key|..]) == |sep|
  {
    DottedChars(prev, 3);
    var s := key + sep + tail;
    assert s[|key|..] == sep + tail;
    SpaceRunIs(sep, tail);
    assert s[|key| + |sep|..] == tail;
    assert key == s[..|key|];
  }

  /** The key may be a proper start of the word: then no white space follows it. */
  lemma MatchInside(w: string, rest: string, key: string, prev: string)
    requires NoSpace(w) && |key| < |w|
    ensures !Matches(w + rest, key, prev)
  {
    var s := w + rest;
    assert s[|key|..][0] == w[|key|];
  }

  /** Or it is not the start of the word at all. */
  lemma MatchBeyond(w: string, rest: string, key: string, prev: string)
    requires IsKey(key) && |w| <= |key| && w != key && (rest != [] ==> IsSpace(rest[0]))
    ensures !Matches(w + rest, key, prev)
  {
    var s := w + rest;
    if |key| <= |s| {
      assert |key| == |w| ==> s[..|key|] == w;
      assert |key| > |w| ==> s[..|key|][|w|] == rest[0];
    }
  }

  /** At the start of a word the pattern matches exactly when the word is the key and the
      address follows. */
  lemma MatchIsKey(w: string, sep: string, tail: string, key: string, prev: string)
    requires AtWord(w, sep, tail) && w != [] && IsKey(key) && IsDotted(prev, 3)
    ensures Matches(w + sep + tail, key, prev) <==> w == key && AddrAt(tail, prev)
    ensures w == key ==> SpaceRun((w + sep + tail)[|key|..]) == |sep|
  {
    assert w + sep + tail == w + (sep + tail);
    if w == key {
      MatchAtKey(sep, tail, key, prev);
    } else if |key| < |w| {
      MatchInside(w, sep + tail, key, prev);
    } else {
      MatchBeyond(w, sep + tail, key, prev);
    }
  }

  lemma SubPlain(s: string, key: string, prev: string, next: string)
    requires s != [] && !Matches(s, key, prev)
    ensures ReSub(s, key, prev, next) == [s[0]] + ReSub(s[1..], key, prev, next)
  {
  }

  lemma SubOfOne(c: char, s: string, key: string, prev: string, next: string)
    requires IsSpace(c) && IsKey(key)
    ensures ReSub([c] + s, key, prev, next) == [c] + ReSub(s, key, prev, next)
  {
    var t := [c] + s;
    assert t[0] == c && t[1..] == s;
    SubPlain(t, key, prev, next);
  }

  lemma {:induction false} SubOfSpace(a: string, b: string, key: string, prev: string, next: string)
    requires AllSpace(a) && IsKey(key)
    ensures ReSub(a + b, key, prev, next) == a + ReSub(b, key, prev, next)
  {
    if a == [] {
      assert a + b == b;
    } else {
      var rest := a[1..];
      assert a + b == [a[0]] + (rest + b) && a == [a[0]] + rest;
      SubOfOne(a[0], rest + b, key, prev, next);
      SubOfSpace(rest, b, key, prev, next);
      assert [a[0]] + (rest + ReSub(b, key, prev, next)) == a + ReSub(b, key, prev, next);
    }
  }

  lemma SubMatch(sep: string, tail: string, key: string, prev: string, next: string)
    requires AtWord(key, sep, tail) && IsKey(key) && IsDotted(prev, 3) && AddrAt(tail, prev)
    ensures ReSub(key + sep + tail, key, prev, next) ==
            key + sep + next + ReSub(tail[|prev|..], key, prev, next)
  {
    var s := key + sep + tail;
    MatchIsKey(key, sep, tail, key, prev);
    DottedChars(prev, 3);
    assert s[..|key| + |sep|] == key + sep;
    assert s[|key| + |sep| + |prev|..] == tail[|prev|..];
  }

  /** What the scan makes of the text behind a word that does or does not end in the key. */
  function Behind(hit: bool, tail: string, key: string, prev: string, next: string): string
  {
    if hit && AddrAt(tail, prev)
    then next + ReSub(tail[|prev|..], key, prev, next)
    else ReSub(tail, key, prev, next)
  }

  /** Scanning one word: only its ending and the start of the text behind it matter. */
  lemma {:induction false} ScanWord(w: string, sep: string, tail: string, key: string, prev: string, next: string)
    requires AtWord(w, sep, tail) && IsKey(key) && IsDotted(prev, 3)
    ensures ReSub(w + sep + tail, key, prev, next) ==
            w + sep + Behind(EndsWith(w, key), tail, key, prev, next)
    decreases |w|, 1
  {
    if w == [] {
      ScanSpace(sep, tail, key, prev, next);
    } else if w == key && AddrAt(tail, prev) {
      ScanMatch(sep, tail, key, prev, next);
    } else if w == key {
      ScanKey(sep, tail, key, prev, next);
    } else {
      ScanWord(w[1..], sep, tail, key, prev, next);
      ScanPlain(w, sep, tail, key, prev, next);
    }
  }

  lemma ScanSpace(sep: string, tail: string, key: string, prev: string, next: string)
    requires AllSpace(sep) && IsKey(key)
    ensures ReSub("" + sep + tail, key, prev, next) == "" + sep + Behind(EndsWith("", key), tail, key, prev, next)
  {
    assert "" + sep == sep;
    SubOfSpace(sep, tail, key, prev, next);
  }

  lemma ScanMatch(sep: string, tail: string, key: string, prev: string, next: string)
    requires AtWord(key, sep, tail) && IsKey(key) && IsDotted(prev, 3) && AddrAt(tail, prev)
    ensures ReSub(key + sep + tail, key, prev, next) == key + sep + Behind(EndsWith(key, key), tail, key, prev, next)
  {
    SubMatch(sep, tail, key, prev, next);
    assert key[0..] == key;
    Regroup3(key + sep, next, ReSub(tail[|prev|..], key, prev, next));
  }

  lemma Regroup3(a: string, b: string, c: string)
    ensures a + b + c == a + (b + c)
  {
  }

  /** A character at which the pattern does not match is copied. */
  lemma ScanPlain(w: string, sep: string, tail: string, key: string, prev: string, next: string)
    requires AtWord(w, sep, tail) && w != [] && w != key && IsKey(key) && IsDotted(prev, 3)
    requires ReSub(w[1..] + sep + tail, key, prev, next) ==
             w[1..] + sep + Behind(EndsWith(w[1..], key), tail, key, prev, next)
    ensures ReSub(w + sep + tail, key, prev, next) ==
            w + sep + Behind(EndsWith(w, key), tail, key, prev, next)
  {
    MatchIsKey(w, sep, tail, key, prev);
    SubPlain(w + sep + tail, key, prev, next);
    FirstChar(w, sep, tail);
    EndingBehindFirst(w, key);
    FirstChar(w, sep, Behind(EndsWith(w, key), tail, key, prev, next));
  }

  /** The key itself, when no address follows. */
  lemma ScanKey(sep: string, tail: string, key: string, prev: string, next: string)
    requires AtWord(key, sep, tail) && IsKey(key) && IsDotted(prev, 3) && !AddrAt(tail, prev)
    ensures ReSub(key + sep + tail, key, prev, next) == key + sep + Behind(EndsWith(key, key), tail, key, prev, next)
    decreases |key|, 0
  {
    MatchIsKey(key, sep, tail, key, prev);
    SubPlain(key + sep + tail, key, prev, next);
    FirstChar(key, sep, tail);
    ScanWord(key[1..], sep, tail, key, prev, next);
    FirstChar(key, sep, ReSub(tail, key, prev, next));
  }

  lemma FirstChar(w: string, sep: string, x: string)
    requires w != []
    ensures w + sep + x == [w[0]] + (w[1..] + sep + x)
    ensures (w + sep + x)[0] == w[0] && (w + sep + x)[1..] == w[1..] + sep + x
  {
  }

  lemma EndingBehindFirst(w: string, key: string)
    requires w != [] && w != key
    ensures EndsWith(w, key) == EndsWith(w[1..], key)
  {
    var v := w[1..];
    assert |key| < |w| ==> w[|w| - |key|..] == v[|v| - |key|..];
  }

  lemma CharsCons(w: string, ws: seq<string>, seps: seq<string>)
    requires |ws| + 1 == |seps|
    ensures Chars([w] + ws, seps) == w + seps[0] + Chars(ws, seps[1..])
  {
    assert ([w] + ws)[1..] == ws;
  }

  /** Scanning the characters of a line is substituting word by word. */
  lemma {:induction false} SubIsPass(ws: seq<string>, seps: seq<string>, key: string, prev: string, next: string)
    requires Parts(ws, seps) && IsKey(key) && IsDotted(prev, 3)
    ensures ReSub(Chars(ws, seps), key, prev, next) == Chars(Pass(false, ws, key, prev, next), seps)
    decreases |ws|, 0
  {
    if ws != [] {
      var w, rest, restSeps := ws[0], ws[1..], seps[1..];
      CharsHead(rest, restSeps);
      ScanWord(w, seps[0], Chars(rest, restSeps), key, prev, next);
      SubBehind(EndsWith(w, key), rest, restSeps, key, prev, next);
      CharsCons(w, Pass(EndsWith(w, key), rest, key, prev, next), seps);
    }
  }

  lemma {:induction false} SubBehind(hit: bool, ws: seq<string>, seps: seq<string>,
      key: string, prev: string, next: string)
    requires Parts(ws, seps) && IsKey(key) && IsDotted(prev, 3)
    ensures Behind(hit, Chars(ws, seps), key, prev, next) == Chars(Pass(hit, ws, key, prev, next), seps)
    decreases |ws|, 3
  {
    DottedChars(prev, 3);
    if hit && ws != [] && AddrAt(ws[0], prev) {
      SubAfterMatch(ws, seps, key, prev, next);
    } else {
      SubIsPass(ws, seps, key, prev, next);
      if ws != [] {
        var behind := seps[0] + Chars(ws[1..], seps[1..]);
        AddrInWord(ws[0], behind, prev);
        assert Chars(ws, seps) == ws[0] + behind;
      }
      assert Pass(hit, ws, key, prev, next) == Pass(false, ws, key, prev, next);
    }
  }

  /** Behind a match the scan goes on in what is left of the word that held the address. */
  lemma {:induction false} SubAfterMatch(ws: seq<string>, seps: seq<string>, key: string, prev: string, next: string)
    requires Parts(ws, seps) && IsKey(key) && IsDotted(prev, 3) && ws != [] && AddrAt(ws[0], prev)
    ensures AddrAt(Chars(ws, seps), prev)
    ensures next + ReSub(Chars(ws, seps)[|prev|..], key, prev, next) ==
            Chars(Pass(true, ws, key, prev, next), seps)
    decreases |ws|, 2
  {
    var cut, rest := ws[0][|prev|..], ws[1..];
    CutParts(ws, seps, prev);
    CutChars(ws, seps, prev);
    CutPass(ws, key, prev, next);
    SubIsPass([cut] + rest, seps, key, prev, next);
    var sub := Pass(EndsWith(cut, key), rest, key, prev, next);
    CharsCons(cut, sub, seps);
    CharsCons(next + cut, sub, seps);
    Regroup(next, cut, seps[0], Chars(sub, seps[1..]));
  }

  lemma CutParts(ws: seq<string>, seps: seq<string>, prev: string)
    requires Parts(ws, seps) && ws != [] && AddrAt(ws[0], prev)
    ensures Parts([ws[0][|prev|..]] + ws[1..], seps)
  {
    var v := [ws[0][|prev|..]] + ws[1..];
    assert forall i :: 1 <= i < |v| ==> v[i] == ws[i];
  }

  lemma CutChars(ws: seq<string>, seps: seq<string>, prev: string)
    requires Parts(ws, seps) && ws != [] && AddrAt(ws[0], prev) && IsDotted(prev, 3)
    ensures AddrAt(Chars(ws, seps), prev)
    ensures Chars(ws, seps)[|prev|..] == Chars([ws[0][|prev|..]] + ws[1..], seps)
  {
    var tail := Chars(ws[1..], seps[1..]);
    CharsCons(ws[0][|prev|..], ws[1..], seps);
    DropAddr(ws[0], prev, seps[0], tail);
  }

  lemma DropAddr(w: string, prev: string, sep: string, tail: string)
    requires AddrAt(w, prev) && IsDotted(prev, 3) && (tail != [] ==> sep != []) && AllSpace(sep)
    ensures AddrAt(w + sep + tail, prev)
    ensures (w + sep + tail)[|prev|..] == w[|prev|..] + sep + tail
  {
    AddrInWord(w, sep + tail, prev);
    DropFront(w, |prev|, sep, tail);
  }

  lemma DropFront(w: string, n: nat, sep: string, tail: string)
    requires n <= |w|
    ensures w + sep + tail == w + (sep + tail)
    ensures (w + sep + tail)[n..] == w[n..] + sep + tail
  {
  }

  lemma CutPass(ws: seq<string>, key: string, prev: string, next: string)
    requires ws != [] && AddrAt(ws[0], prev) && IsDotted(prev, 3) && IsKey(key)
    ensures var cut := ws[0][|prev|..];
            var sub := Pass(EndsWith(cut, key), ws[1..], key, prev, next);
            && Pass(true, ws, key, prev, next) == [next + cut] + sub
            && Pass(false, [cut] + ws[1..], key, prev, next) == [cut] + sub
  {
    var cut := ws[0][|prev|..];
    DottedChars(prev, 3);
    assert ws[0] == prev + cut;
    EndingInTail(prev, cut, key);
    assert ([cut] + ws[1..])[1..] == ws[1..];
  }

  lemma Regroup(a: string, b: string, c: string, d: string)
    ensures a + (b + c + d) == (a + b) + c + d
  {
  }

  /** `rewrite_destination_rules` on the characters of one affected line. */
  function ReRewrite(s: string, prev: string, next: string): string
  {
    ReSub(ReSub(s, TO_DESTINATION, prev, next), DEST_FLAG, prev, next)
  }

  /** The two substitutions on characters give the line whose words are rewritten. */
  /** One scan of the characters behind the leading white space. */
  lemma OneScan(lead: string, words: seq<string>, seps: seq<string>, key: string, prev: string, next: string)
    requires IsLine(Line(lead, words, seps)) && IsKey(key) && IsDotted(prev, 3) && IsDotted(next, 3)
    ensures ReSub(lead + Chars(words, seps), key, prev, next) == lead + Chars(Pass(false, words, key, prev, next), seps)
  {
    SubOfSpace(lead, Chars(words, seps), key, prev, next);
    SubIsPass(words, seps, key, prev, next);
  }

  lemma PassIsLine(lead: string, words: seq<string>, seps: seq<string>, key: string, prev: string, next: string)
    requires IsLine(Line(lead, words, seps)) && IsDotted(prev, 3) && IsDotted(next, 3)
    ensures IsLine(Line(lead, Pass(false, words, key, prev, next), seps))
  {
    DottedChars(next, 3);
    forall i | 0 <= i < |words|
      ensures IsWord(Pass(false, words, key, prev, next)[i])
    {
      PassAt(false, words, key, prev, next, i);
    }
  }

  lemma RewriteOnCharacters(l: Line, prev: string, next: string)
    requires IsLine(l) && IsDotted(prev, 3) && IsDotted(next, 3)
    ensures ReRewrite(l.lead + Chars(l.words, l.seps), prev, next) ==
            l.lead + Chars(RewriteWords(l.words, prev, next), l.seps)
  {
    PassIsLine(l.lead, l.words, l.seps, TO_DESTINATION, prev, next);
    OneScan(l.lead, l.words, l.seps, TO_DESTINATION, prev, next);
    OneScan(l.lead, Pass(false, l.words, TO_DESTINATION, prev, next), l.seps, DEST_FLAG, prev, next);
  }
}
