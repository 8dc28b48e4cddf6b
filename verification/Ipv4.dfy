/** IPv4 addresses as the agent reads and validates them. */
module Ipv4 {
  import opened Common
  import opened Words

  /** `\d{1,3}(?:\.\d{1,3}){k}` at the start of `s`: length of the match, -1 when there is none.
      The last group takes up to three digits even when a fourth one follows. */
  function GroupsLen(s: string, k: nat): (n: int)
    ensures -1 <= n <= |s|
    ensures n != 0
  {
    var r := DigitRun(s);
    if k == 0 then
      if r == 0 then -1 else if r <= 3 then r else 3
    else if 1 <= r <= 3 && r < |s| && s[r] == '.' then
      var n := GroupsLen(s[r + 1..], k - 1);
      if n < 0 then -1 else r + 1 + n
    else -1
  }

  function QuadLen(s: string): (n: int)
    ensures -1 <= n <= |s| && n != 0
  {
    GroupsLen(s, 3)
  }

  /** The shape of a dotted address: `k + 1` groups of one to three digits, and nothing else. */
  predicate IsDotted(s: string, k: nat)
  {
    var r := DigitRun(s);
    && 1 <= r <= 3
    && if k == 0 then r == |s| else r < |s| && s[r] == '.' && IsDotted(s[r + 1..], k - 1)
  }

  /** An octet as `ipaddress` accepts it: no leading zero, at most 255. */
  predicate IsOctet(s: string)
    requires forall i :: 0 <= i < |s| ==> IsDigit(s[i])
  {
    (|s| > 1 ==> s[0] != '0') && Number(s) <= 255
  }

  predicate AreOctets(s: string, k: nat)
    requires IsDotted(s, k)
  {
    var r := DigitRun(s);
    IsOctet(s[..r]) && (k > 0 ==> AreOctets(s[r + 1..], k - 1))
  }

  /** `_parse_ipv4` accepts: four octets, not unspecified, multicast or loopback. */
  predicate IsDestination(s: string)
  {
    && IsDotted(s, 3)
    && AreOctets(s, 3)
    && var first := Number(s[..DigitRun(s)]);
       first != 127 && !(224 <= first <= 239) && s != "0.0.0.0"
  }

  /** White space at both ends removed, Python's `str.strip`. */
  function StripLeft(s: string): string
  {
    s[SpaceRun(s)..]
  }

  function StripRight(s: string): string
  {
    if s != [] && IsSpace(s[|s| - 1]) then StripRight(s[..|s| - 1]) else s
  }

  function Strip(s: string): string { StripRight(StripLeft(s)) }

  /** `_parse_ipv4`: the normalised address, or None where the source raises ValueError.  An
      accepted IPv4 text is already in the normal form that `str(addr)` gives back. */
  function ParseIpv4(value: string): (r: Option<string>)
    ensures r.Some? ==> IsDestination(r.value)
  {
    var s := Strip(value);
    if IsDestination(s) then Some(s) else None
  }

  /** `ip(?!\d)` at the start of the word. */
  predicate AddrAt(w: string, ip: string)
  {
    ip <= w && (|w| == |ip| || !IsDigit(w[|ip|]))
  }

  lemma {:induction false} DottedChars(s: string, k: nat)
    requires IsDotted(s, k)
    ensures s != [] && IsDigit(s[0]) && IsDigit(s[|s| - 1]) && AllAddr(s)
  {
    var r := DigitRun(s);
    if k > 0 {
      var t := s[r + 1..];
      DottedChars(t, k - 1);
      forall i | 0 <= i < |s|
        ensures IsAddrChar(s[i])
      {
        if i > r {
          assert s[i] == t[i - r - 1];
        }
      }
      assert s[|s| - 1] == t[|t| - 1];
    }
  }

  lemma DigitRunIs(s: string, r: nat)
    requires r <= |s|
    requires forall i :: 0 <= i < r ==> IsDigit(s[i])
    requires r < |s| ==> !IsDigit(s[r])
    ensures DigitRun(s) == r
  {
  }

  /** The search pattern reads back exactly the address the word starts with. */
  lemma GroupsStep(w: string, r: nat, k: nat)
    requires k > 0 && 1 <= r <= 3 && r < |w| && DigitRun(w) == r && w[r] == '.' && GroupsLen(w[r + 1..], k - 1) > 0
    ensures GroupsLen(w, k) == r + 1 + GroupsLen(w[r + 1..], k - 1)
  {
  }

  lemma {:induction false} GroupsOfAddress(w: string, ip: string, k: nat)
    requires IsDotted(ip, k) && AddrAt(w, ip)
    ensures GroupsLen(w, k) == |ip|
  {
    var r := DigitRun(ip);
    assert forall i :: 0 <= i < |ip| ==> w[i] == ip[i];
    DigitRunIs(w, r);
    if k > 0 {
      var u, v := w[r + 1..], ip[r + 1..];
      assert v <= u && (|u| > |v| ==> u[|v|] == w[|ip|]);
      GroupsOfAddress(u, v, k - 1);
      GroupsStep(w, r, k);
    }
  }

  lemma QuadOfAddress(w: string, ip: string)
    requires IsDotted(ip, 3) && AddrAt(w, ip)
    ensures QuadLen(w) == |ip|
  {
    GroupsOfAddress(w, ip, 3);
  }

  /** No word starts with two different addresses: 10.0.0.1 is never found in 10.0.0.10. */
  lemma AddressUnique(w: string, a: string, b: string)
    requires IsDotted(a, 3) && IsDotted(b, 3)
    requires AddrAt(w, a) && AddrAt(w, b)
    ensures a == b
  {
    QuadOfAddress(w, a);
    QuadOfAddress(w, b);
    assert a == w[..|a|] && b == w[..|b|];
  }

  lemma {:induction false} GroupsDigits(s: string, k: nat)
    requires GroupsLen(s, k) > 0
    ensures IsDigit(s[0]) && IsDigit(s[GroupsLen(s, k) - 1])
  {
    if k > 0 {
      var r := DigitRun(s);
      GroupsDigits(s[r + 1..], k - 1);
    }
  }

  /** An address without white space around it is read as it stands. */
  lemma ParseTrimmed(ip: string)
    requires ip != [] && IsDigit(ip[0]) && IsDigit(ip[|ip| - 1])
    ensures ParseIpv4(ip) == if IsDestination(ip) then Some(ip) else None
  {
    SpaceRunIs("", ip);
    assert "" + ip == ip;
    assert ip[0..] == ip;
  }

  lemma {:induction false} GroupsChars(s: string, k: nat)
    requires GroupsLen(s, k) > 0
    ensures AllAddr(s[..GroupsLen(s, k)])
  {
    if k > 0 {
      var r := DigitRun(s);
      var t := s[r + 1..];
      GroupsChars(t, k - 1);
      forall i | 0 <= i < GroupsLen(s, k)
        ensures IsAddrChar(s[i])
      {
        if i > r {
          assert s[i] == t[..GroupsLen(t, k - 1)][i - r - 1];
        }
      }
    }
  }

  /** The search pattern takes all of a word only if the word is an address. */
  lemma {:induction false} WholeIsDotted(s: string, k: nat)
    requires GroupsLen(s, k) == |s|
    ensures IsDotted(s, k)
  {
    if k > 0 {
      WholeIsDotted(s[DigitRun(s) + 1..], k - 1);
    }
  }

  // ----- which texts are accepted -----

  /** Blank, tab, the line and page separators, and the four separators 28 to 31. */
  predicate IsWhite(s: string)
  {
    forall i :: 0 <= i < |s| ==> s[i] as int in {9, 10, 11, 12, 13, 28, 29, 30, 31, 32}
  }

  lemma WhiteIsSpace(s: string)
    ensures IsWhite(s) <==> AllSpace(s)
  {
    assert forall i :: 0 <= i < |s| ==> (s[i] == ' ' <==> s[i] as int == 32);
  }

  /** `v` is `s` with white space around it. */
  ghost predicate Padded(v: string, s: string)
  {
    exists pre, post :: IsWhite(pre) && IsWhite(post) && v == pre + s + post
  }

  lemma {:induction false} StripRightPrefix(s: string)
    ensures StripRight(s) <= s && AllSpace(s[|StripRight(s)|..])
  {
    if s != [] && IsSpace(s[|s| - 1]) {
      var t := s[..|s| - 1];
      StripRightPrefix(t);
      assert s[|StripRight(t)|..] == t[|StripRight(t)|..] + [s[|s| - 1]];
    }
  }

  lemma {:induction false} StripRightOf(s: string, post: string)
    requires AllSpace(post) && (s == [] || !IsSpace(s[|s| - 1]))
    ensures StripRight(s + post) == s
    decreases |post|
  {
    if post == [] {
      assert s + post == s;
    } else {
      assert (s + post)[..|s + post| - 1] == s + post[..|post| - 1];
      StripRightOf(s, post[..|post| - 1]);
    }
  }

  lemma StripPads(v: string)
    ensures Padded(v, Strip(v))
  {
    var n, t := SpaceRun(v), StripLeft(v);
    StripRightPrefix(t);
    var pre, post := v[..n], t[|Strip(v)|..];
    WhiteIsSpace(pre);
    WhiteIsSpace(post);
    assert v == pre + t && t == Strip(v) + post;
    assert v == pre + Strip(v) + post;
  }

  lemma StripOfPadded(pre: string, s: string, post: string)
    requires AllSpace(pre) && AllSpace(post) && s != [] && !IsSpace(s[0]) && !IsSpace(s[|s| - 1])
    ensures Strip(pre + (s + post)) == s
  {
    SpaceRunIs(pre, s + post);
    assert (pre + (s + post))[|pre|..] == s + post;
    StripRightOf(s, post);
  }

  lemma StripIff(v: string, s: string)
    requires s != [] && !IsSpace(s[0]) && !IsSpace(s[|s| - 1])
    ensures Strip(v) == s <==> Padded(v, s)
  {
    StripPads(v);
    if Padded(v, s) {
      var pre, post :| IsWhite(pre) && IsWhite(post) && v == pre + s + post;
      WhiteIsSpace(pre);
      WhiteIsSpace(post);
      assert v == pre + (s + post);
      StripOfPadded(pre, s, post);
    }
  }

  /** The accepted texts are exactly the destination addresses with white space around them, and each
      is read as that address. */
  lemma ParseIff(v: string, ip: string)
    ensures ParseIpv4(v) == Some(ip) <==> IsDestination(ip) && Padded(v, ip)
  {
    if IsDestination(ip) {
      DottedChars(ip, 3);
      StripIff(v, ip);
    }
  }

  // ----- what a destination is, in numbers -----

  function Joined(ns: seq<nat>): string
    requires ns != []
  {
    if |ns| == 1 then Decimal(ns[0]) else Decimal(ns[0]) + "." + Joined(ns[1..])
  }

  predicate Bytes(ns: seq<nat>) { forall i :: 0 <= i < |ns| ==> ns[i] <= 255 }

  lemma RunOfDecimal(n: nat, rest: string)
    requires rest == [] || !IsDigit(rest[0])
    ensures DigitRun(Decimal(n) + rest) == |Decimal(n)| && (Decimal(n) + rest)[..|Decimal(n)|] == Decimal(n)
  {
    DigitRunIs(Decimal(n) + rest, |Decimal(n)|);
  }

  lemma LastOctet(n: nat)
    requires n <= 255
    ensures var s := Decimal(n); IsDotted(s, 0) && AreOctets(s, 0) && DigitRun(s) == |s| && s[..|s|] == s
  {
    var s := Decimal(n);
    DecimalLength(n);
    NumberDecimal(n);
    DigitRunIs(s, |s|);
    assert s[..|s|] == s;
  }

  lemma OctetInFront(n: nat, rest: string, k: nat)
    requires n <= 255 && k > 0 && IsDotted(rest, k - 1) && AreOctets(rest, k - 1)
    ensures var s, d := Decimal(n) + "." + rest, Decimal(n);
            && DigitRun(s) == |d| < |s| && s[..|d|] == d && s[|d| + 1..] == rest
            && IsDotted(s, k) && AreOctets(s, k)
  {
    var s, d := Decimal(n) + "." + rest, Decimal(n);
    DecimalLength(n);
    NumberDecimal(n);
    RunOfDecimal(n, "." + rest);
    assert s == d + ("." + rest);
    assert s[|d|] == '.' && s[|d| + 1..] == rest;
  }

  lemma JoinedCons(ns: seq<nat>)
    requires |ns| > 1
    ensures Joined(ns) == Decimal(ns[0]) + "." + Joined(ns[1..])
  {
  }

  /** The text reads as dotted octets, the first of which is `d`, in front of `rest`. */
  ghost predicate ReadsAs(s: string, k: nat, d: string, rest: string)
  {
    && IsDotted(s, k) && AreOctets(s, k) && DigitRun(s) == |d| <= |s| && s[..|d|] == d
    && (k > 0 ==> |d| < |s| && s[|d| + 1..] == rest)
  }

  lemma {:induction false} JoinedIsDotted(ns: seq<nat>, k: nat)
    requires |ns| == k + 1 && Bytes(ns)
    ensures ReadsAs(Joined(ns), k, Decimal(ns[0]), if k > 0 then Joined(ns[1..]) else "")
  {
    if k == 0 {
      LastOctet(ns[0]);
    } else {
      JoinedIsDotted(ns[1..], k - 1);
      JoinedCons(ns);
      OctetInFront(ns[0], Joined(ns[1..]), k);
    }
  }

  lemma {:induction false} DottedIsJoined(s: string, k: nat) returns (ns: seq<nat>)
    requires IsDotted(s, k) && AreOctets(s, k)
    ensures |ns| == k + 1 && Bytes(ns) && s == Joined(ns)
  {
    var r := DigitRun(s);
    var n := Number(s[..r]);
    DecimalNumber(s[..r]);
    if k == 0 {
      assert s == s[..r];
      ns := [n];
    } else {
      var rest := DottedIsJoined(s[r + 1..], k - 1);
      ns := [n] + rest;
      assert ns[1..] == rest;
      assert s == s[..r] + "." + s[r + 1..];
    }
  }

  /** There is only one way to read it. */
  lemma {:induction false} JoinedOnce(ns: seq<nat>, ms: seq<nat>, k: nat)
    requires |ns| == |ms| == k + 1 && Bytes(ns) && Bytes(ms) && Joined(ns) == Joined(ms)
    ensures ns == ms
  {
    JoinedIsDotted(ns, k);
    JoinedIsDotted(ms, k);
    NumberDecimal(ns[0]);
    NumberDecimal(ms[0]);
    assert ns == [ns[0]] + ns[1..] && ms == [ms[0]] + ms[1..];
    if k > 0 {
      JoinedOnce(ns[1..], ms[1..], k - 1);
    }
  }

  /** Four numbers up to 255 in decimal; not loopback (127), not multicast (224 to 239) and not 0.0.0.0. */
  ghost predicate IsUsable(s: string, ns: seq<nat>)
  {
    && |ns| == 4 && Bytes(ns) && s == Joined(ns)
    && ns[0] != 127 && !(224 <= ns[0] <= 239) && ns != [0, 0, 0, 0]
  }

  lemma ZeroAddress()
    ensures Joined([0, 0, 0, 0]) == "0.0.0.0"
  {
    assert Decimal(0) == "0";
    assert [0, 0, 0, 0][1..] == [0, 0, 0] && [0, 0, 0][1..] == [0, 0] && [0, 0][1..] == [0];
    assert Joined([0]) == "0";
    assert Joined([0, 0]) == "0" + "." + "0";
    assert Joined([0, 0, 0]) == "0" + "." + Joined([0, 0]);
  }

  /** The destination addresses in numbers. */
  lemma DestinationIff(s: string)
    ensures IsDestination(s) <==> exists ns :: IsUsable(s, ns)
  {
    ZeroAddress();
    if IsDestination(s) {
      var ns := DottedIsJoined(s, 3);
      JoinedIsDotted(ns, 3);
      NumberDecimal(ns[0]);
      assert IsUsable(s, ns);
    }
    if exists ns :: IsUsable(s, ns) {
      var ns :| IsUsable(s, ns);
      JoinedIsDotted(ns, 3);
      NumberDecimal(ns[0]);
      if s == "0.0.0.0" {
        JoinedOnce(ns, [0, 0, 0, 0], 3);
      }
    }
  }
}
