/** Characters and words of an iptables-save line: the parts of Python's `re` and `str` that the
    agent's patterns use.  Every pattern in the agent separates literals with white space only, so
    a pattern is a condition on consecutive words; the conditions on single words are here. */
module Words {

  predicate IsDigit(c: char) { '0' <= c <= '9' }

  /** ASCII white space of `str.strip` and `\s`: blank, tab to carriage return, and the four separators
      from 0x1C to 0x1F. */
  predicate IsSpace(c: char) { c == ' ' || 9 <= c as int <= 13 || 28 <= c as int <= 31 }

  /** A character of a dotted address. */
  predicate IsAddrChar(c: char) { IsDigit(c) || c == '.' }

  predicate NoSpace(s: string) { forall i :: 0 <= i < |s| ==> !IsSpace(s[i]) }

  predicate AllSpace(s: string) { forall i :: 0 <= i < |s| ==> IsSpace(s[i]) }

  predicate AllAddr(s: string) { forall i :: 0 <= i < |s| ==> IsAddrChar(s[i]) }

  predicate EndsWith(s: string, p: string)
  {
    |p| <= |s| && s[|s| - |p|..] == p
  }

  predicate OccursAt(s: string, i: int, p: string)
  {
    0 <= i && i + |p| <= |s| && s[i..i + |p|] == p
  }

  /** Python's `p in s`. */
  predicate Contains(s: string, p: string)
  {
    exists i :: 0 <= i <= |s| && OccursAt(s, i, p)
  }

  function LowerChar(c: char): char
  {
    if 'A' <= c <= 'Z' then (c as int + 32) as char else c
  }

  function Lower(s: string): (r: string)
    ensures |r| == |s|
  {
    seq(|s|, i requires 0 <= i < |s| => LowerChar(s[i]))
  }

  /** Length of the leading run of digits, `\d*` at the start of `s`. */
  function DigitRun(s: string): (n: nat)
    ensures n <= |s|
    ensures forall i :: 0 <= i < n ==> IsDigit(s[i])
    ensures n < |s| ==> !IsDigit(s[n])
  {
    DigitRunFrom(s, 0)
  }

  function DigitRunFrom(s: string, i: nat): (n: nat)
    requires i <= |s|
    requires forall j :: 0 <= j < i ==> IsDigit(s[j])
    ensures i <= n <= |s|
    ensures forall j :: 0 <= j < n ==> IsDigit(s[j])
    ensures n < |s| ==> !IsDigit(s[n])
    decreases |s| - i
  {
    if i < |s| && IsDigit(s[i]) then DigitRunFrom(s, i + 1) else i
  }

  /** Length of the leading run of white space, `\s*` at the start of `s`. */
  function SpaceRun(s: string): (n: nat)
    ensures n <= |s|
    ensures forall i :: 0 <= i < n ==> IsSpace(s[i])
    ensures n < |s| ==> !IsSpace(s[n])
  {
    SpaceRunFrom(s, 0)
  }

  function SpaceRunFrom(s: string, i: nat): (n: nat)
    requires i <= |s|
    requires forall j :: 0 <= j < i ==> IsSpace(s[j])
    ensures i <= n <= |s|
    ensures forall j :: 0 <= j < n ==> IsSpace(s[j])
    ensures n < |s| ==> !IsSpace(s[n])
    decreases |s| - i
  {
    if i < |s| && IsSpace(s[i]) then SpaceRunFrom(s, i + 1) else i
  }

  /** Python's `int` on a run of digits. */
  function Number(s: string): nat
    requires forall i :: 0 <= i < |s| ==> IsDigit(s[i])
  {
    if s == [] then 0
    else
      var d := s[|s| - 1];
      assert IsDigit(d);
      10 * Number(s[..|s| - 1]) + (d as int - '0' as int)
  }

  /** Python's `str` on a number that is not negative. */
  function Decimal(n: nat): (s: string)
    ensures s != [] && forall i :: 0 <= i < |s| ==> IsDigit(s[i])
  {
    var d := [(n % 10 + '0' as int) as char];
    if n < 10 then d else Decimal(n / 10) + d
  }

  /** Reading a number back. */
  lemma {:induction false} NumberDecimal(n: nat)
    ensures Number(Decimal(n)) == n
  {
    var s := Decimal(n);
    var last := (n % 10 + '0' as int) as char;
    assert s[|s| - 1] == last;
    if n < 10 {
      assert s == [last] && s[..0] == "";
    } else {
      NumberDecimal(n / 10);
      assert s[..|s| - 1] == Decimal(n / 10);
    }
  }

  /** A text without leading zeros is the decimal of the number it reads as. */
  lemma {:induction false} DecimalNumber(s: string)
    requires s != [] && (forall i :: 0 <= i < |s| ==> IsDigit(s[i])) && (|s| > 1 ==> s[0] != '0')
    ensures Decimal(Number(s)) == s && (s[0] != '0' ==> Number(s) > 0)
  {
    var pre, d := s[..|s| - 1], s[|s| - 1];
    assert s == pre + [d] && IsDigit(d);
    if |s| == 1 {
      assert pre == "" && Number(s) == d as int - '0' as int;
    } else {
      assert pre[0] == s[0];
      DecimalNumber(pre);
      assert Number(s) / 10 == Number(pre);
    }
  }

  /** Up to three digits for numbers below a thousand. */
  lemma DecimalLength(n: nat)
    requires n < 1000
    ensures |Decimal(n)| <= 3 && (|Decimal(n)| > 1 ==> Decimal(n)[0] != '0')
  {
    if n >= 10 {
      assert Decimal(n) == Decimal(n / 10) + [(n % 10 + '0' as int) as char];
      if n >= 100 {
        assert Decimal(n / 10) == Decimal(n / 100) + [(n / 10 % 10 + '0' as int) as char];
      }
    }
  }

  lemma SpaceRunIs(a: string, b: string)
    requires AllSpace(a) && (b == [] || !IsSpace(b[0]))
    ensures SpaceRun(a + b) == |a|
  {
    var s := a + b;
    assert forall i :: 0 <= i < |a| ==> IsSpace(s[i]);
    assert b != [] ==> !IsSpace(s[|a|]);
  }

  /** Exchanging the address in front of a word does not change which literals end the word. */
  lemma TailKeepsEnding(a: string, b: string, rest: string, key: string)
    requires AllAddr(a) && AllAddr(b)
    requires key != [] && !IsAddrChar(key[0])
    ensures EndsWith(a + rest, key) == EndsWith(rest, key) == EndsWith(b + rest, key)
  {
    EndingInTail(a, rest, key);
    EndingInTail(b, rest, key);
  }

  lemma EndingInTail(a: string, rest: string, key: string)
    requires AllAddr(a)
    requires key != [] && !IsAddrChar(key[0])
    ensures EndsWith(a + rest, key) == EndsWith(rest, key)
  {
    var w := a + rest;
    if |key| <= |rest| {
      assert w[|w| - |key|..] == rest[|rest| - |key|..];
    } else if |key| <= |w| {
      assert w[|w| - |key|..][0] == a[|w| - |key|];
    }
  }
}
