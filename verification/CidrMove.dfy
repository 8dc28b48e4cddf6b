/** Moving the provider rows from the main database to the CIDR database: two commits, and a crash
    may come anywhere between them. */
module CidrMove {
  import opened Common

  datatype Provider = Provider(provider: string, cidr: string, region: Option<string>, countries: Option<string>,
                               refreshed: Option<int>)

  type Rows = map<int, Provider>

  /** The two tables; None when the table does not exist. */
  datatype Disk = Disk(main: Option<Rows>, cidr: Option<Rows>)

  /** COALESCE(refreshed_at, datetime('now')). */
  function Stamped(r: Provider, now: int): Provider
  {
    if r.refreshed.None? then r.(refreshed := Some(now)) else r
  }

  function StampedRows(m: Rows, now: int): Rows { map id | id in m :: Stamped(m[id], now) }

  /** The CIDR table's UNIQUE (provider_key, cidr). */
  predicate UniqueRanges(m: Rows)
  {
    forall i, j :: i in m && j in m && m[i].provider == m[j].provider && m[i].cidr == m[j].cidr ==> i == j
  }

  /** INSERT ... SELECT into the empty CIDR table; None when its constraint stops it. */
  function Copied(main: Rows, now: int): Option<Rows>
  {
    if UniqueRanges(main) then Some(StampedRows(main, now)) else None
  }

  /** What happens at each point where the disk may change: the step is done, it raises, or the
      process dies before or after it took effect. */
  datatype Event = Fine | Error | DiesBefore | DiesAfter

  datatype Outcome = Finished | Raised | Died

  function Ended(e: Event): Outcome { if e == Fine then Finished else if e == Error then Raised else Died }

  /** One commit that meets event `e`. */
  function Committed(d: Disk, new_: Disk, e: Event): Disk { if e == Fine || e == DiesAfter then new_ else d }

  datatype Ran = Ran(disk: Disk, outcome: Outcome)

  /** The copy and the drop, from rows in the main table alone. */
  function CopiedOver(d: Disk, main: Rows, now: int, es: nat -> Event, n: nat): Ran
  {
    var copy := Copied(main, now);
    var both := d.(cidr := copy);
    if copy.None? then Ran(d, Raised)
    else if es(n) != Fine then Ran(Committed(d, both, es(n)), Ended(es(n)))
    else Ran(Committed(both, both.(main := None), es(n + 1)), Ended(es(n + 1)))
  }

  /** Moving the rows; commit `i` meets event `es(n + i)`. */
  function Moved(d: Disk, now: int, es: nat -> Event, n: nat): Ran
  {
    if d.main.None? || d.cidr.None? then Ran(d, Finished)
    else if |d.main.value| == 0 then Ran(Committed(d, d.(main := None), es(n)), Ended(es(n)))
    else if |d.cidr.value| > 0 then Ran(d, Finished)
    else CopiedOver(d, d.main.value, now, es, n)
  }

  /** A whole run: the CIDR table is created first if it is missing. */
  function Migrated(d: Disk, now: int, es: nat -> Event, n: nat): Ran
  {
    if d.cidr.Some? then Moved(d, now, es, n)
    else
      var made := d.(cidr := Some(map[]));
      if es(n) != Fine then Ran(Committed(d, made, es(n)), Ended(es(n))) else Moved(made, now, es, n + 1)
  }

  class Store {
    var disk: Disk
    var calls: nat
    const events: nat -> Event

    constructor (d: Disk, es: nat -> Event)
      ensures disk == d && calls == 0 && events == es
    {
      disk, calls, events := d, 0, es;
    }

    /** Commit one change of the disk. */
    method Put(d: Disk) returns (e: Event)
      modifies this
      ensures calls == old(calls) + 1 && e == events(old(calls))
      ensures disk == Committed(old(disk), d, e)
    {
      e := events(calls);
      calls := calls + 1;
      if e == Fine || e == DiesAfter {
        disk := d;
      }
    }

    /** `run_cidr_db_migrations`: create the CIDR table, then move the rows. */
    method RunMigrations(now: int) returns (out: Outcome)
      modifies this
      ensures Ran(disk, out) == Migrated(old(disk), now, events, old(calls))
    {
      if disk.cidr.None? {
        var e := Put(disk.(cidr := Some(map[])));
        if e != Fine {
          return Ended(e);
        }
      }
      out := Move(now);
    }

    method Move(now: int) returns (out: Outcome)
      requires disk.cidr.Some?
      modifies this
      ensures Ran(disk, out) == Moved(old(disk), now, events, old(calls))
    {
      if disk.main.None? {
        return Finished;
      }
      var main, cidr := disk.main.value, disk.cidr.value;
      if |main| == 0 {
        var e := Put(disk.(main := None));
        return Ended(e);
      }
      if |cidr| > 0 {
        return Finished;
      }
      StampedSize(main, now);
      var copy := Copied(main, now);
      if copy.None? {
        return Raised;
      }
      var e := Put(disk.(cidr := copy));
      if e != Fine {
        return Ended(e);
      }
      if |copy.value| != |main| {
        return Raised;
      }
      e := Put(disk.(main := None));
      return Ended(e);
    }
  }

  lemma StampedSize(m: Rows, now: int)
    ensures |StampedRows(m, now)| == |m|
  {
    assert StampedRows(m, now).Keys == m.Keys;
    assert |StampedRows(m, now).Keys| == |m.Keys|;
  }

  function Main(d: Disk): Rows { if d.main.None? then map[] else d.main.value }

  function Cidr(d: Disk): Rows { if d.cidr.None? then map[] else d.cidr.value }

  /** The row is in one of the databases, with a missing timestamp filled in by one of the times at most. */
  predicate Present(d: Disk, id: int, r: Provider, times: set<int>)
  {
    || (id in Main(d) && SameRow(Main(d)[id], r, times))
    || (id in Cidr(d) && SameRow(Cidr(d)[id], r, times))
  }

  predicate SameRow(have: Provider, want: Provider, times: set<int>)
  {
    && have.provider == want.provider && have.cidr == want.cidr && have.region == want.region
    && have.countries == want.countries
    && (have.refreshed == want.refreshed
        || (want.refreshed == None && have.refreshed.Some? && have.refreshed.value in times))
  }

  /** What the copy makes of the rows: the same ids and columns, and `now` for a missing timestamp. */
  lemma StampedIs(m: Rows, now: int)
    ensures var s := StampedRows(m, now);
            && s.Keys == m.Keys
            && forall id :: id in m ==>
                 && s[id].provider == m[id].provider && s[id].cidr == m[id].cidr && s[id].region == m[id].region
                 && s[id].countries == m[id].countries
                 && s[id].refreshed == if m[id].refreshed == None then Some(now) else m[id].refreshed
  {
  }

  /** What every run keeps, wherever it stops: no CIDR row is changed, the main table is untouched or
      gone, and it is gone only if it was empty or every one of its rows is in the CIDR table. */
  ghost predicate Safe(before: Disk, after: Disk, now: int)
  {
    && (forall id :: id in Cidr(before) ==> id in Cidr(after) && Cidr(after)[id] == Cidr(before)[id])
    && (after.main == before.main || (before.main.Some? && after.main.None? &&
          forall id :: id in Main(before) ==> id in Cidr(after) && Cidr(after)[id] == Stamped(Main(before)[id], now)))
    && (before.cidr.Some? ==> after.cidr.Some?)
  }

  /** How a run ends that finishes: moved, or left alone because both tables have rows. */
  ghost predicate Settled(before: Disk, after: Disk, now: int)
  {
    && after.cidr.Some?
    && (if |Main(before)| > 0 && |Cidr(before)| > 0 then after == before
        else after.main.None? && Cidr(after) == (if |Main(before)| == 0 then Cidr(before)
          else StampedRows(Main(before), now)))
  }

  lemma UniqueStamped(m: Rows, now: int)
    ensures UniqueRanges(StampedRows(m, now)) <==> UniqueRanges(m)
  {
    var s := StampedRows(m, now);
    assert forall i :: i in m <==> i in s;
    assert forall i :: i in m ==> s[i].provider == m[i].provider && s[i].cidr == m[i].cidr;
  }

  lemma MoveSafe(d: Disk, now: int, es: nat -> Event, n: nat)
    ensures Safe(d, Moved(d, now, es, n).disk, now)
  {
    if d.main.Some? && d.cidr.Some? && |d.cidr.value| == 0 {
      StampedSize(d.main.value, now);
    }
  }

  /** Wherever a run stops, what it leaves is safe. */
  lemma RunSafe(d: Disk, now: int, es: nat -> Event, n: nat)
    ensures Safe(d, Migrated(d, now, es, n).disk, now)
  {
    MoveSafe(d, now, es, n);
    MoveSafe(d.(cidr := Some(map[])), now, es, n + 1);
  }

  lemma RunSettles(d: Disk, now: int, es: nat -> Event, n: nat)
    ensures Migrated(d, now, es, n).outcome == Finished ==> Settled(d, Migrated(d, now, es, n).disk, now)
  {
    if d.main.Some? {
      StampedSize(d.main.value, now);
      if d.cidr.Some? && |d.cidr.value| == 0 {
        StampedSize(d.main.value, now);
      }
    }
  }

  // ----- any number of starts -----

  /** One start of the panel: when it is, and what its commits meet. */
  datatype Start = Start(now: int, events: nat -> Event)

  /** Serialised starts, each possibly cut short. */
  ghost predicate Starts(ds: seq<Disk>, ss: seq<Start>)
  {
    |ds| == |ss| + 1 && forall i :: 0 <= i < |ss| ==> ds[i + 1] == Migrated(ds[i], ss[i].now, ss[i].events, 0).disk
  }

  lemma PresentStays(before: Disk, after: Disk, now: int, id: int, r: Provider, times: set<int>)
    requires Safe(before, after, now) && Present(before, id, r, times) && now in times
    ensures Present(after, id, r, times)
  {
    if id in Main(before) && SameRow(Main(before)[id], r, times) {
      assert after.main != before.main ==> SameRow(Stamped(Main(before)[id], now), r, times);
    }
  }

  /** Over any number of starts, each cut short anywhere, every row that was in the main or the CIDR
      table at the beginning is in one of them at every point, up to a missing timestamp that is filled
      with the time of a start. */
  lemma {:induction false} NoRowLost(ds: seq<Disk>, ss: seq<Start>, n: nat, id: int, r: Provider, times: set<int>)
    requires Starts(ds, ss) && n < |ds| && forall i :: 0 <= i < |ss| ==> ss[i].now in times
    requires Present(ds[0], id, r, {})
    ensures Present(ds[n], id, r, times)
  {
    if n > 0 {
      NoRowLost(ds, ss, n - 1, id, r, times);
      RunSafe(ds[n - 1], ss[n - 1].now, ss[n - 1].events, 0);
      PresentStays(ds[n - 1], ds[n], ss[n - 1].now, id, r, times);
    }
  }

  // ----- a crash between the two commits -----

  predicate BothHaveRows(d: Disk) { |Main(d)| > 0 && |Cidr(d)| > 0 }

  /** The copy is committed and the drop is not. */
  predicate CutBetween(es: nat -> Event, n: nat)
  {
    es(n) == DiesAfter || (es(n) == Fine && (es(n + 1) == Error || es(n + 1) == DiesBefore))
  }

  /** From rows in the main table alone, a run leaves rows in both exactly when it is cut between its
      two commits; then every row is in both. */
  lemma HalfMovedIff(m: Rows, now: int, es: nat -> Event, n: nat)
    requires |m| > 0 && UniqueRanges(m)
    ensures var r := Migrated(Disk(Some(m), Some(map[])), now, es, n);
            && (BothHaveRows(r.disk) <==> CutBetween(es, n))
            && (CutBetween(es, n) ==> r.disk == Disk(Some(m), Some(StampedRows(m, now))) && r.outcome != Finished)
  {
    StampedSize(m, now);
    UniqueStamped(m, now);
  }

  /** The same for a disk without a CIDR table, one commit later. */
  lemma HalfMovedAfterCreation(m: Rows, now: int, es: nat -> Event, n: nat)
    requires |m| > 0 && UniqueRanges(m)
    ensures BothHaveRows(Migrated(Disk(Some(m), None), now, es, n).disk) <==> es(n) == Fine && CutBetween(es, n + 1)
  {
    StampedSize(m, now);
    UniqueStamped(m, now);
  }

  /** That disk is never resumed: whatever later starts meet, they leave both tables as they are. */
  lemma {:induction false} CrashBetweenCommitsStays(ds: seq<Disk>, ss: seq<Start>, first: nat, n: nat)
    requires Starts(ds, ss) && first <= n < |ds| && BothHaveRows(ds[first])
    ensures ds[n] == ds[first]
    ensures n < |ss| ==> Migrated(ds[n], ss[n].now, ss[n].events, 0).outcome == Finished
    decreases n
  {
    if first < n {
      CrashBetweenCommitsStays(ds, ss, first, n - 1);
    }
  }

  /** The main table can be dropped: it has no rows, or they are alone and no two of them have the same
      provider and range. */
  predicate Movable(d: Disk)
  {
    || |Main(d)| == 0
    || (&& |Cidr(d)| == 0
        && forall i, j :: i in Main(d) && j in Main(d) && i != j ==>
             Main(d)[i].provider != Main(d)[j].provider || Main(d)[i].cidr != Main(d)[j].cidr)
  }

  ghost predicate AllFine(s: Start) { forall n: nat :: s.events(n) == Fine }

  lemma FineRun(d: Disk, s: Start)
    requires AllFine(s)
    ensures var e := Migrated(d, s.now, s.events, 0).disk;
            && (e.main.None? <==> Movable(d))
            && (!Movable(d) ==> e.main == d.main && Cidr(e) == Cidr(d))
  {
    if d.main.Some? {
      UniqueStamped(d.main.value, s.now);
      StampedSize(d.main.value, s.now);
      if d.cidr.Some? && |d.cidr.value| == 0 {
        StampedSize(d.main.value, s.now);
      }
    }
  }

  /** After one or more starts that nothing disturbs the main table is gone if and only if it had no rows,
      or the CIDR table had none and the ranges were unique. */
  lemma {:induction false} UndisturbedDropsIff(ds: seq<Disk>, ss: seq<Start>, n: nat)
    requires Starts(ds, ss) && n < |ss| && forall i :: 0 <= i < |ss| ==> AllFine(ss[i])
    ensures ds[n + 1].main.None? <==> Movable(ds[0])
    ensures Movable(ds[n + 1]) <==> Movable(ds[0])
  {
    FineRun(ds[n], ss[n]);
    if n > 0 {
      UndisturbedDropsIff(ds, ss, n - 1);
    }
  }
}
