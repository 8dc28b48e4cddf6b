/** The self-heal of the DOCKER-USER chain on a front node that also runs Docker. */
module DockerUser {
  import opened Common

  datatype Proto = Udp | Tcp

  /** The rules the agent asks for, and any other rule as its words. */
  datatype Rule = Established | Accept(proto: Proto, port: string) | Other(words: seq<string>)

  type Chain = seq<Rule>

  /** The rules asked for, in the order the set of ports happens to be visited. */
  function Required(ports: seq<string>): seq<Rule>
  {
    if ports == [] then [Established]
    else Required(ports[..|ports| - 1]) + [Accept(Udp, ports[|ports| - 1]), Accept(Tcp, ports[|ports| - 1])]
  }

  /** `-I DOCKER-USER 1` when `-C` does not find the rule. */
  function Ensured(c: Chain, r: Rule): Chain { if r in c then c else [r] + c }

  function EnsuredAll(c: Chain, rs: seq<Rule>): Chain
  {
    if rs == [] then c else Ensured(EnsuredAll(c, rs[..|rs| - 1]), rs[|rs| - 1])
  }

  /** What the environment does to one call of iptables: nothing, an error exit, an exception that is
      caught (FileNotFoundError or timeout), or another one, which ends the request. */
  datatype Call = Works | Errs | Raises | Escapes

  /** What it does to the check and to the insert of one rule. */
  datatype Fault = Fault(check: Call, insert: Call)

  /** The insert is called: `-C` says that the rule is missing, or exits with an error, for instance
      because another process holds the xtables lock.  The source does not tell these apart. */
  predicate Tries(c: Chain, r: Rule, f: Fault) { f.check == Errs || (f.check == Works && r !in c) }

  predicate Inserts(c: Chain, r: Rule, f: Fault) { Tries(c, r, f) && f.insert == Works }

  datatype Heal = Heal(chain: Chain, changed: bool)

  /** The source does not look at the exit of the insert: only an exception keeps it from returning True. */
  function HealOne(h: Heal, r: Rule, f: Fault): Heal
  {
    Heal(if Inserts(h.chain, r, f) then [r] + h.chain else h.chain,
         h.changed || (Tries(h.chain, r, f) && (f.insert == Works || f.insert == Errs)))
  }

  /** An exception that is not caught ends the self-heal at this rule. */
  predicate EndsAt(c: Chain, r: Rule, f: Fault) { f.check == Escapes || (Tries(c, r, f) && f.insert == Escapes) }

  /** The rules `rs` ensured one after the other; rule `i` meets fault `fs(n + i)`. */
  function Healed(c: Chain, rs: seq<Rule>, fs: nat -> Fault, n: nat): Heal
  {
    if rs == [] then Heal(c, false)
    else
      var k := |rs| - 1;
      HealOne(Healed(c, rs[..k], fs, n), rs[k], fs(n + k))
  }

  /** The order in which the set of the given ports, without empty ones, is visited. */
  ghost predicate Visits(order: seq<string>, given: seq<string>)
  {
    && (forall p :: p in order <==> p in given && p != "")
    && forall i, j :: 0 <= i < j < |order| ==> order[i] != order[j]
  }

  class Docker {
    var chain: Chain
    var rules: nat
    const faults: nat -> Fault

    constructor (c: Chain, fs: nat -> Fault)
      ensures chain == c && rules == 0 && faults == fs
    {
      chain, rules, faults := c, 0, fs;
    }

    /** `_ensure_rule`; None when an exception escapes. */
    method EnsureRule(r: Rule) returns (changed: Option<bool>)
      modifies this
      ensures rules == old(rules) + 1
      ensures changed.None? <==> EndsAt(old(chain), r, faults(old(rules)))
      ensures Heal(chain, changed == Some(true)) == HealOne(Heal(old(chain), false), r, faults(old(rules)))
    {
      var fault := faults(rules);
      rules := rules + 1;
      if fault.check == Escapes {
        return None;
      }
      if fault.check == Raises {
        return Some(false);
      }
      var code := if fault.check == Works && r in chain then 0 else 1;
      if code != 0 {
        if fault.insert == Escapes {
          return None;
        }
        if fault.insert == Raises {
          return Some(false);
        }
        if fault.insert == Works {
          chain := [r] + chain;
        }
        return Some(true);
      }
      return Some(false);
    }

    /** `_ensure_docker_forward_allows`.  `probe` is what `iptables -L DOCKER-USER` meets: on a host
        without the chain, or when the call fails, nothing is done.  An exception that escapes leaves the
        rules visited before it. */
    method EnsureForwardAllows(probe: Call, given: seq<string>, order: seq<string>) returns (changed: Option<bool>)
      requires Visits(order, given)
      modifies this
      ensures probe != Works ==> chain == old(chain) && changed == if probe == Escapes then None else Some(false)
      ensures probe == Works && changed.Some? ==>
                Heal(chain, changed.value) == Healed(old(chain), Required(order), faults, old(rules))
      ensures probe == Works && changed.None? ==>
                exists k :: 0 <= k < |Required(order)| &&
                  EndsWithin(old(chain), Required(order), faults, old(rules), k, chain)
    {
      if probe != Works {
        return if probe == Escapes then None else Some(false);
      }
      var any := false;
      var asked := Required(order);
      for i := 0 to |asked|
        invariant rules == old(rules) + i
        invariant Heal(chain, any) == Healed(old(chain), asked[..i], faults, old(rules))
      {
        HealedStep(old(chain), asked, faults, old(rules), i);
        var inserted := EnsureRule(asked[i]);
        if inserted.None? {
          assert EndsWithin(old(chain), asked, faults, old(rules), i, chain);
          return None;
        }
        any := inserted.value || any;
      }
      assert asked[..|asked|] == asked;
      return Some(any);
    }
  }

  /** The self-heal ended at rule `k`: exactly the rules before it were ensured. */
  predicate EndsWithin(before: Chain, rs: seq<Rule>, fs: nat -> Fault, n: nat, k: nat, after: Chain)
    requires k < |rs|
  {
    after == Healed(before, rs[..k], fs, n).chain && EndsAt(after, rs[k], fs(n + k))
  }

  // ----- every environment -----

  predicate Distinct(rs: seq<Rule>)
  {
    forall i, j :: 0 <= i < j < |rs| ==> rs[i] != rs[j]
  }

  function Added(before: Chain, after: Chain): seq<Rule>
    requires |before| <= |after|
  {
    after[..|after| - |before|]
  }

  /** The old rules are an ordered suffix, and only asked-for rules are in front of them. */
  ghost predicate Headed(before: Chain, after: Chain, rs: seq<Rule>)
  {
    && |before| <= |after| && after[|after| - |before|..] == before
    && forall r :: r in Added(before, after) ==> r in rs
  }

  /** In addition each of them was missing and none is there twice. */
  ghost predicate Grown(before: Chain, after: Chain, rs: seq<Rule>)
  {
    && Headed(before, after, rs)
    && Distinct(Added(before, after))
    && forall r :: r in Added(before, after) ==> r !in before
  }

  lemma AddedOne(before: Chain, c: Chain, r: Rule)
    requires |before| <= |c| && c[|c| - |before|..] == before
    ensures var d := [r] + c; d[|d| - |before|..] == before && Added(before, d) == [r] + Added(before, c)
  {
  }

  /** Whatever the environment does, the chain only grows at its head, by rules that were asked for. */
  lemma {:induction false} AlwaysHeaded(c: Chain, rs: seq<Rule>, fs: nat -> Fault, n: nat)
    ensures Headed(c, Healed(c, rs, fs, n).chain, rs)
  {
    if rs != [] {
      var k := |rs| - 1;
      AlwaysHeaded(c, rs[..k], fs, n);
      AddedOne(c, Healed(c, rs[..k], fs, n).chain, rs[k]);
      assert rs == rs[..k] + [rs[k]];
    }
  }

  lemma HeadedIn(c: Chain, d: Chain, rs: seq<Rule>, r: Rule)
    requires Headed(c, d, rs)
    ensures r in d <==> r in c || r in Added(c, d)
  {
    assert d == Added(c, d) + c;
  }

  /** When a rule that was not asked for before is visited, it is there if and only if it was there at
      the start. */
  lemma NotYet(c: Chain, rs: seq<Rule>, fs: nat -> Fault, n: nat, r: Rule)
    requires r !in rs
    ensures r in Healed(c, rs, fs, n).chain <==> r in c
  {
    AlwaysHeaded(c, rs, fs, n);
    HeadedIn(c, Healed(c, rs, fs, n).chain, rs, r);
  }

  /** The check of a present rule exits with an error and the insert works. */
  predicate Repeats(c: Chain, r: Rule, f: Fault) { r in c && f.check == Errs && f.insert == Works }

  lemma GrownStep(before: Chain, c: Chain, rs: seq<Rule>, r: Rule)
    requires Headed(before, c, rs) && r !in rs
    ensures Grown(before, [r] + c, rs + [r]) <==> Grown(before, c, rs) && r !in before
    ensures Grown(before, c, rs + [r]) <==> Grown(before, c, rs)
  {
    AddedOne(before, c, r);
    var added := Added(before, c);
    if Distinct([r] + added) {
      assert forall i :: 0 <= i < |added| ==> ([r] + added)[i + 1] == added[i];
    }
  }

  ghost predicate NoneRepeats(c: Chain, rs: seq<Rule>, fs: nat -> Fault, n: nat)
  {
    forall i :: 0 <= i < |rs| ==> !Repeats(c, rs[i], fs(n + i))
  }

  lemma NoneRepeatsStep(c: Chain, rs: seq<Rule>, fs: nat -> Fault, n: nat)
    requires rs != []
    ensures var k := |rs| - 1;
            NoneRepeats(c, rs, fs, n) <==> NoneRepeats(c, rs[..k], fs, n) && !Repeats(c, rs[k], fs(n + k))
  {
    var k := |rs| - 1;
    assert forall i :: 0 <= i < k ==> rs[..k][i] == rs[i];
  }

  lemma HealedStep(c: Chain, rs: seq<Rule>, fs: nat -> Fault, n: nat, i: nat)
    requires i < |rs|
    ensures Healed(c, rs[..i + 1], fs, n) == HealOne(Healed(c, rs[..i], fs, n), rs[i], fs(n + i))
  {
    assert rs[..i + 1][..i] == rs[..i];
  }

  lemma GrownNext(before: Chain, h: Heal, rs: seq<Rule>, r: Rule, f: Fault)
    requires Headed(before, h.chain, rs) && r !in rs && (r in h.chain <==> r in before)
    ensures Grown(before, HealOne(h, r, f).chain, rs + [r]) <==> Grown(before, h.chain, rs) && !Repeats(before, r, f)
  {
    GrownStep(before, h.chain, rs, r);
  }

  lemma HealedSnoc(c: Chain, before: seq<Rule>, r: Rule, fs: nat -> Fault, n: nat)
    ensures Healed(c, before + [r], fs, n) == HealOne(Healed(c, before, fs, n), r, fs(n + |before|))
  {
    assert (before + [r])[..|before|] == before;
  }

  lemma NothingTwiceSnoc(c: Chain, before: seq<Rule>, r: Rule, fs: nat -> Fault, n: nat)
    requires r !in before
    ensures Grown(c, Healed(c, before + [r], fs, n).chain, before + [r]) <==>
            Grown(c, Healed(c, before, fs, n).chain, before) && !Repeats(c, r, fs(n + |before|))
  {
    HealedSnoc(c, before, r, fs, n);
    AlwaysHeaded(c, before, fs, n);
    NotYet(c, before, fs, n, r);
    GrownNext(c, Healed(c, before, fs, n), before, r, fs(n + |before|));
  }

  lemma NoneRepeatsSnoc(c: Chain, before: seq<Rule>, r: Rule, fs: nat -> Fault, n: nat)
    ensures NoneRepeats(c, before + [r], fs, n) <==> NoneRepeats(c, before, fs, n) && !Repeats(c, r, fs(n + |before|))
  {
    NoneRepeatsStep(c, before + [r], fs, n);
    assert (before + [r])[..|before|] == before;
  }

  lemma DistinctSnoc(before: seq<Rule>, r: Rule)
    requires Distinct(before + [r])
    ensures Distinct(before) && r !in before
  {
    var rs := before + [r];
    assert forall i :: 0 <= i < |before| ==> rs[i] == before[i];
    assert rs[|before|] == r;
  }

  lemma NothingTwiceNone(c: Chain, fs: nat -> Fault, n: nat)
    ensures Grown(c, Healed(c, [], fs, n).chain, []) && NoneRepeats(c, [], fs, n)
  {
    assert Added(c, c) == [];
  }

  /** Nothing is duplicated if and only if no check of a rule that was present exits with an error while
      its insert works. */
  lemma {:induction false} NothingTwiceIff(c: Chain, rs: seq<Rule>, fs: nat -> Fault, n: nat)
    requires Distinct(rs)
    ensures Grown(c, Healed(c, rs, fs, n).chain, rs) <==> NoneRepeats(c, rs, fs, n)
  {
    if rs == [] {
      NothingTwiceNone(c, fs, n);
    } else {
      var before, r := rs[..|rs| - 1], rs[|rs| - 1];
      assert rs == before + [r];
      DistinctSnoc(before, r);
      NothingTwiceIff(c, before, fs, n);
      NothingTwiceSnoc(c, before, r, fs, n);
      NoneRepeatsSnoc(c, before, r, fs, n);
    }
  }

  /** The input that shows the condition is needed: the lock is held during the check of a rule that is
      there, and free again for the insert. */
  lemma LockedCheckDuplicates(c: Chain, r: Rule, n: nat)
    requires r in c
    ensures Healed(c, [r], i => Fault(Errs, Works), n) == Heal([r] + c, true)
    ensures !Grown(c, [r] + c, [r])
  {
    assert [r][..0] == [];
    assert Healed(c, [r][..0], i => Fault(Errs, Works), n) == Heal(c, false);
    AddedOne(c, c, r);
    assert r in Added(c, [r] + c);
  }

  /** Which asked-for rules are there afterwards. */
  lemma {:induction false} PresentIff(c: Chain, rs: seq<Rule>, fs: nat -> Fault, n: nat, k: nat)
    requires Distinct(rs) && k < |rs|
    ensures rs[k] in Healed(c, rs, fs, n).chain <==> rs[k] in c || Inserts(c, rs[k], fs(n + k))
  {
    var last := |rs| - 1;
    var before := rs[..last];
    if k == last {
      NotYet(c, before, fs, n, rs[k]);
    } else {
      PresentIff(c, before, fs, n, k);
    }
  }

  // ----- what the result says -----

  /** Some insert works, or is called and exits with an error. */
  ghost predicate SomeInsert(c: Chain, rs: seq<Rule>, fs: nat -> Fault, n: nat, end: Call)
  {
    exists i :: 0 <= i < |rs| && Tries(c, rs[i], fs(n + i)) && fs(n + i).insert == end
  }

  lemma SomeInsertStep(c: Chain, rs: seq<Rule>, fs: nat -> Fault, n: nat, end: Call)
    requires rs != []
    ensures var k := |rs| - 1;
            SomeInsert(c, rs, fs, n, end) <==>
            SomeInsert(c, rs[..k], fs, n, end) || (Tries(c, rs[k], fs(n + k)) && fs(n + k).insert == end)
  {
    var k := |rs| - 1;
    assert forall i :: 0 <= i < k ==> rs[..k][i] == rs[i];
  }

  lemma {:induction false} ChangedIff(c: Chain, rs: seq<Rule>, fs: nat -> Fault, n: nat)
    requires Distinct(rs)
    ensures var h := Healed(c, rs, fs, n);
            && |h.chain| >= |c|
            && (h.chain != c <==> SomeInsert(c, rs, fs, n, Works))
            && (h.changed <==> SomeInsert(c, rs, fs, n, Works) || SomeInsert(c, rs, fs, n, Errs))
  {
    if rs != [] {
      var k := |rs| - 1;
      ChangedIff(c, rs[..k], fs, n);
      NotYet(c, rs[..k], fs, n, rs[k]);
      SomeInsertStep(c, rs, fs, n, Works);
      SomeInsertStep(c, rs, fs, n, Errs);
    }
  }

  /** The result tells whether a rule was inserted, if and only if an insert worked or none that was
      called exited with an error. */
  lemma ChangedIsTrueIff(c: Chain, rs: seq<Rule>, fs: nat -> Fault, n: nat)
    requires Distinct(rs)
    ensures var h := Healed(c, rs, fs, n);
            (h.changed <==> h.chain != c) <==> SomeInsert(c, rs, fs, n, Works) || !SomeInsert(c, rs, fs, n, Errs)
  {
    ChangedIff(c, rs, fs, n);
  }

  /** The input that shows it: a missing rule whose insert fails is reported as inserted. */
  lemma FailedInsertReported(c: Chain, r: Rule, n: nat)
    requires r !in c
    ensures Healed(c, [r], i => Fault(Works, Errs), n) == Heal(c, true)
  {
    assert [r][..0] == [];
    assert Healed(c, [r][..0], i => Fault(Works, Errs), n) == Heal(c, false);
  }

  // ----- no fault -----

  /** With no fault the chain is the ensured one, and the result says whether it changed. */
  lemma {:induction false} UndisturbedHeals(c: Chain, rs: seq<Rule>, fs: nat -> Fault, n: nat)
    requires forall k :: k >= n ==> fs(k) == Fault(Works, Works)
    ensures Healed(c, rs, fs, n).chain == EnsuredAll(c, rs)
    ensures Healed(c, rs, fs, n).changed <==> EnsuredAll(c, rs) != c
    ensures |EnsuredAll(c, rs)| >= |c|
  {
    if rs != [] {
      UndisturbedHeals(c, rs[..|rs| - 1], fs, n);
    }
  }

  /** With no fault every asked-for rule is there. */
  lemma {:induction false} AllPresent(c: Chain, rs: seq<Rule>, r: Rule)
    ensures r in EnsuredAll(c, rs) <==> r in c || r in rs
  {
    if rs != [] {
      AllPresent(c, rs[..|rs| - 1], r);
      assert rs == rs[..|rs| - 1] + [rs[|rs| - 1]];
    }
  }

  lemma {:induction false} NothingMissing(c: Chain, rs: seq<Rule>)
    requires forall r :: r in rs ==> r in c
    ensures EnsuredAll(c, rs) == c
  {
    if rs != [] {
      assert forall r :: r in rs[..|rs| - 1] ==> r in rs;
      NothingMissing(c, rs[..|rs| - 1]);
    }
  }

  lemma {:induction false} RequiredOf(ports: seq<string>, r: Rule)
    ensures r in Required(ports) <==>
            r == Established || exists p :: p in ports && (r == Accept(Udp, p) || r == Accept(Tcp, p))
  {
    if ports != [] {
      var last := ports[|ports| - 1];
      RequiredOf(ports[..|ports| - 1], r);
      assert ports == ports[..|ports| - 1] + [last];
    }
  }

  /** The rules asked for are pairwise different, since the ports are a set. */
  lemma {:induction false} RequiredDistinct(order: seq<string>)
    requires forall i, j :: 0 <= i < j < |order| ==> order[i] != order[j]
    ensures Distinct(Required(order))
  {
    if order != [] {
      var rest, last := order[..|order| - 1], order[|order| - 1];
      RequiredDistinct(rest);
      RequiredOf(rest, Accept(Udp, last));
      RequiredOf(rest, Accept(Tcp, last));
      assert last !in rest;
    }
  }

  /** A second call, visiting the same ports in any other order, inserts nothing. */
  lemma SecondCallChangesNothing(c: Chain, ports: seq<string>, again: seq<string>)
    requires forall p :: p in ports <==> p in again
    ensures EnsuredAll(EnsuredAll(c, Required(ports)), Required(again)) == EnsuredAll(c, Required(ports))
  {
    var d := EnsuredAll(c, Required(ports));
    forall r | r in Required(again)
      ensures r in d
    {
      RequiredOf(ports, r);
      RequiredOf(again, r);
      AllPresent(c, Required(ports), r);
    }
    NothingMissing(d, Required(again));
  }

  /** The rules afterwards do not depend on the order in which the ports are visited. */
  lemma OrderIrrelevant(c: Chain, ports: seq<string>, other: seq<string>, r: Rule)
    requires forall p :: p in ports <==> p in other
    ensures r in EnsuredAll(c, Required(ports)) <==> r in EnsuredAll(c, Required(other))
  {
    RequiredOf(ports, r);
    RequiredOf(other, r);
    AllPresent(c, Required(ports), r);
    AllPresent(c, Required(other), r);
  }
}
