/** The one-shot backfill of `users.access_until` from the deadlines of the owned profiles. */
module DeadlineBackfill {
  import opened Common
  import opened Words
  import opened Ipv4

  /** A row of `SELECT DISTINCT node_id, client_name, vpn_type` for one owner. */
  datatype Profile = Profile(node: int, client: string, vpn: string)

  /** The policy tables: deadline per node and client name; a missing row reads like a NULL deadline. */
  datatype Policies = Policies(
    openvpn: map<(int, string), Option<int>>,
    wireguard: map<(int, string), Option<int>>,
    amneziawg2: map<(int, string), Option<int>>)

  function Lookup(t: map<(int, string), Option<int>>, node: int, name: string): Option<int>
  {
    if (node, name) in t then t[(node, name)] else None
  }

  function Name(p: Profile): string { Strip(p.client) }

  /** A profile of a type without policies, or without a name, is skipped. */
  predicate Examined(p: Profile)
  {
    Lower(p.vpn) in {"openvpn", "wireguard", "amneziawg2"} && Name(p) != ""
  }

  /** The deadline of an examined profile; None means unlimited.  OpenVPN names keep their case. */
  function Deadline(db: Policies, p: Profile): Option<int>
  {
    var kind := Lower(p.vpn);
    if kind == "openvpn" then Lookup(db.openvpn, p.node, Name(p))
    else if kind == "wireguard" then Lookup(db.wireguard, p.node, Lower(Name(p)))
    else Lookup(db.amneziawg2, p.node, Lower(Name(p)))
  }

  /** The stated meaning, without an order of rows: the latest deadline of the examined profiles, if
      there is one, none of them is unlimited and it lies after `now`. */
  ghost predicate IsSubscription(db: Policies, ps: seq<Profile>, now: int, r: Option<int>)
  {
    match r
    case Some(d) =>
      && d > now
      && (exists p :: p in ps && Examined(p) && Deadline(db, p) == Some(d))
      && (forall p :: p in ps && Examined(p) ==> Deadline(db, p).Some? && Deadline(db, p).value <= d)
    case None =>
      || (exists p :: p in ps && Examined(p) && Deadline(db, p) == None)
      || (forall p :: p in ps && Examined(p) ==> Deadline(db, p).Some? && Deadline(db, p).value <= now)
  }

  /** `_backfill_subscription_deadline`. */
  method SubscriptionDeadline(db: Policies, ps: seq<Profile>, now: int) returns (r: Option<int>)
    ensures IsSubscription(db, ps, now, r)
  {
    var latest: Option<int> := None;
    for i := 0 to |ps|
      invariant forall j :: 0 <= j < i && Examined(ps[j]) ==> Deadline(db, ps[j]).Some?
      invariant forall j :: 0 <= j < i && Examined(ps[j]) ==> latest.Some? && Deadline(db, ps[j]).value <= latest.value
      invariant latest.Some? ==> exists p :: p in ps && Examined(p) && Deadline(db, p) == latest
    {
      var p := ps[i];
      if !Examined(p) {
        continue;
      }
      var raw := Deadline(db, p);
      if raw == None {
        assert p in ps;
        return None;
      }
      if latest == None || raw.value > latest.value {
        latest := raw;
        assert p in ps && Deadline(db, p) == latest;
      }
    }
    if latest == None || latest.value <= now {
      return None;
    }
    return latest;
  }

  lemma OneSided(db: Policies, ps: seq<Profile>, qs: seq<Profile>, now: int, a: Option<int>, b: Option<int>)
    requires forall p :: p in ps ==> p in qs
    requires IsSubscription(db, ps, now, a) && IsSubscription(db, qs, now, b)
    ensures a.Some? && b.Some? ==> a.value <= b.value
    ensures a.Some? && b.None? ==> exists p :: p in qs && Examined(p) && Deadline(db, p) == None
  {
    if a.Some? {
      var p :| p in ps && Examined(p) && Deadline(db, p) == a;
      assert p in qs;
    }
  }

  lemma NoneUnlimited(db: Policies, ps: seq<Profile>, qs: seq<Profile>, now: int, a: Option<int>)
    requires forall p :: p in qs ==> p in ps
    requires IsSubscription(db, ps, now, a) && a.Some?
    ensures !exists p :: p in qs && Examined(p) && Deadline(db, p) == None
  {
  }

  /** There is only one such answer, and it depends on the set of profiles alone: not on the order of
      the rows nor on repetitions. */
  lemma OrderIrrelevant(db: Policies, ps: seq<Profile>, qs: seq<Profile>, now: int, a: Option<int>, b: Option<int>)
    requires forall p :: p in ps <==> p in qs
    requires IsSubscription(db, ps, now, a) && IsSubscription(db, qs, now, b)
    ensures a == b
  {
    OneSided(db, ps, qs, now, a, b);
    OneSided(db, qs, ps, now, b, a);
    if a.Some? {
      NoneUnlimited(db, ps, qs, now, a);
    }
    if b.Some? {
      NoneUnlimited(db, qs, ps, now, b);
    }
  }

  // ----- where the deadlines come from -----

  /** A stored deadline counts if it lies after `now`. */
  function Live(d: Option<int>, now: int): Option<int>
  {
    if d.Some? && d.value > now then d else None
  }

  lemma SingleAnswer(db: Policies, p: Profile, now: int, r: Option<int>)
    requires IsSubscription(db, [p], now, r)
    ensures r == if Examined(p) then Live(Deadline(db, p), now) else None
  {
    assert p in [p];
    assert forall q :: q in [p] ==> q == p;
  }

  /** The owner of one profile gets the deadline of the table of its type, under the node and the stripped
      name, which is lower-cased except for OpenVPN; and none for another type or an empty name. */
  lemma OneProfile(db: Policies, p: Profile, now: int, r: Option<int>)
    requires IsSubscription(db, [p], now, r)
    ensures Strip(p.client) == "" ==> r == None
    ensures Lower(p.vpn) == "openvpn" && Strip(p.client) != "" ==>
              var k := (p.node, Strip(p.client));
              r == if k in db.openvpn then Live(db.openvpn[k], now) else None
    ensures Lower(p.vpn) == "wireguard" && Strip(p.client) != "" ==>
              var k := (p.node, Lower(Strip(p.client)));
              r == if k in db.wireguard then Live(db.wireguard[k], now) else None
    ensures Lower(p.vpn) == "amneziawg2" && Strip(p.client) != "" ==>
              var k := (p.node, Lower(Strip(p.client)));
              r == if k in db.amneziawg2 then Live(db.amneziawg2[k], now) else None
    ensures Lower(p.vpn) !in {"openvpn", "wireguard", "amneziawg2"} ==> r == None
  {
    SingleAnswer(db, p, now, r);
  }

  /** The deadline stored for a profile, by its type. */
  ghost predicate Stored(db: Policies, p: Profile, d: int)
  {
    var name := Strip(p.client);
    && name != ""
    && ((Lower(p.vpn) == "openvpn" && (p.node, name) in db.openvpn && db.openvpn[(p.node, name)] == Some(d))
        || (Lower(p.vpn) == "wireguard" && (p.node, Lower(name)) in db.wireguard
            && db.wireguard[(p.node, Lower(name))] == Some(d))
        || (Lower(p.vpn) == "amneziawg2" && (p.node, Lower(name)) in db.amneziawg2
            && db.amneziawg2[(p.node, Lower(name))] == Some(d)))
  }

  /** The answer is the latest stored deadline and lies after `now`; there is none if nothing stored does, or
      if a named profile of a known type has nothing stored. */
  lemma LatestWins(db: Policies, ps: seq<Profile>, now: int, r: Option<int>)
    requires IsSubscription(db, ps, now, r)
    ensures forall p, d :: r.Some? && p in ps && Stored(db, p, d) ==> d <= r.value
    ensures r.Some? ==> r.value > now && exists p :: p in ps && Stored(db, p, r.value)
    ensures (forall p, d :: p in ps && Stored(db, p, d) ==> d <= now) ==> r == None
    ensures (exists p :: p in ps && Strip(p.client) != "" && Lower(p.vpn) in {"openvpn", "wireguard", "amneziawg2"}
               && forall d :: !Stored(db, p, d)) ==> r == None
  {
    forall p, d | p in ps && Stored(db, p, d)
      ensures Examined(p) && Deadline(db, p) == Some(d)
    {
    }
    if r.Some? {
      var p :| p in ps && Examined(p) && Deadline(db, p) == r;
      assert Stored(db, p, r.value);
      forall q | q in ps && Strip(q.client) != "" && Lower(q.vpn) in {"openvpn", "wireguard", "amneziawg2"}
        ensures exists d :: Stored(db, q, d)
      {
        assert Examined(q);
        assert Stored(db, q, Deadline(db, q).value);
      }
    }
  }

  /** It is there whenever every named profile of a known type has something stored and some of it lies
      after `now`. */
  lemma SomeAnswer(db: Policies, ps: seq<Profile>, now: int, r: Option<int>, p: Profile, d: int)
    requires IsSubscription(db, ps, now, r) && p in ps && Stored(db, p, d) && d > now
    requires forall q :: q in ps && Strip(q.client) != "" && Lower(q.vpn) in {"openvpn", "wireguard", "amneziawg2"} ==>
               exists e :: Stored(db, q, e)
    ensures r.Some?
  {
    assert Examined(p) && Deadline(db, p) == Some(d);
    forall q | q in ps && Examined(q)
      ensures Deadline(db, q).Some?
    {
      var e :| Stored(db, q, e);
    }
  }

  /** The databases agree on the tables of the types that occur. */
  ghost predicate AgreeOn(db: Policies, other: Policies, ps: seq<Profile>)
  {
    && ((exists p :: p in ps && Lower(p.vpn) == "openvpn") ==> db.openvpn == other.openvpn)
    && ((exists p :: p in ps && Lower(p.vpn) == "wireguard") ==> db.wireguard == other.wireguard)
    && ((exists p :: p in ps && Lower(p.vpn) == "amneziawg2") ==> db.amneziawg2 == other.amneziawg2)
  }

  lemma SameDeadline(db: Policies, other: Policies, ps: seq<Profile>, p: Profile)
    requires AgreeOn(db, other, ps) && p in ps && Examined(p)
    ensures Deadline(db, p) == Deadline(other, p)
  {
  }

  lemma SameSubscription(db: Policies, other: Policies, ps: seq<Profile>, now: int, r: Option<int>)
    requires IsSubscription(db, ps, now, r)
    requires forall p :: p in ps && Examined(p) ==> Deadline(db, p) == Deadline(other, p)
    ensures IsSubscription(other, ps, now, r)
  {
  }

  /** Only those tables matter. */
  lemma OtherTablesIrrelevant(db: Policies, other: Policies, ps: seq<Profile>, now: int, a: Option<int>, b: Option<int>)
    requires AgreeOn(db, other, ps) && IsSubscription(db, ps, now, a) && IsSubscription(other, ps, now, b)
    ensures a == b
  {
    forall p | p in ps && Examined(p)
      ensures Deadline(db, p) == Deadline(other, p)
    {
      SameDeadline(db, other, ps, p);
    }
    SameSubscription(db, other, ps, now, a);
    OrderIrrelevant(other, ps, ps, now, a, b);
  }

  // ----- the one-shot migration -----

  /** The columns of `vpn_configs` that the step looks at. */
  datatype Config = Config(owner: int, profile: Profile, primary: Option<int>)

  type Users = map<int, Option<int>>

  /** `users.access_until`, `vpn_configs`, the policy tables and `app_settings`. */
  datatype State = State(users: Users, configs: seq<Config>, policies: Policies, settings: map<string, string>)

  const MARKER := "migration_user_access_until_backfill_done"

  /** The profiles of a user that are not copies of a primary one. */
  function Owned(configs: seq<Config>, user: int): seq<Profile>
  {
    if configs == [] then []
    else
      var c := configs[0];
      (if c.owner == user && c.primary.None? then [c.profile] else []) + Owned(configs[1..], user)
  }

  /** The join of the step: users without a date that own a profile. */
  predicate Selected(s: State, user: int)
  {
    user in s.users && s.users[user].None? && Owned(s.configs, user) != []
  }

  /** An empty value reads as not done. */
  predicate DoneBefore(s: State) { MARKER in s.settings && s.settings[MARKER] != "" }

  /** INSERT; None when the key exists. */
  function Inserted(settings: map<string, string>, key: string, value: string): Option<map<string, string>>
  {
    if key in settings then None else Some(settings[key := value])
  }

  /** A date that is set stays, a missing one becomes the subscription of all owned profiles. */
  ghost predicate Filled(s: State, now: int, users: Users)
  {
    && users.Keys == s.users.Keys
    && forall u :: u in users ==>
         if s.users[u].Some? then users[u] == s.users[u]
         else IsSubscription(s.policies, Owned(s.configs, u), now, users[u])
  }

  /** What a run that is not cut short makes of the database.  If the marker row is there with an empty
      value, the final INSERT fails on the key and everything is rolled back. */
  ghost predicate Effect(s: State, now: int, t: State)
  {
    if DoneBefore(s) then t == s
    else
      match Inserted(s.settings, MARKER, "1")
      case None => t == s
      case Some(settings) => t == s.(users := t.users, settings := settings) && Filled(s, now, t.users)
  }

  class UserDatabase {
    var state: State

    constructor (s: State)
      ensures state == s
    {
      state := s;
    }

    /** `_migrate_user_access_until_backfill` in its transaction; the users come in any order. */
    method Backfill(now: int) returns (ok: bool)
      modifies this
      ensures Effect(old(state), now, state)
      ensures ok <==> MARKER !in old(state).settings || DoneBefore(old(state))
    {
      if DoneBefore(state) {
        return true;
      }
      var users := state.users;
      var todo := set u | u in users && Selected(state, u);
      while todo != {}
        invariant state == old(state) && users.Keys == state.users.Keys && todo <= users.Keys
        invariant forall u :: u in todo ==> Selected(state, u) && users[u] == None
        invariant forall u :: u in users && u !in todo ==>
                    if state.users[u].Some? then users[u] == state.users[u]
                    else IsSubscription(state.policies, Owned(state.configs, u), now, users[u])
        decreases todo
      {
        var u :| u in todo;
        todo := todo - {u};
        var deadline := SubscriptionDeadline(state.policies, Owned(state.configs, u), now);
        if deadline.Some? && users[u].None? {
          users := users[u := deadline];
        }
      }
      var settings := Inserted(state.settings, MARKER, "1");
      if settings.None? {
        return false;
      }
      state := state.(users := users, settings := settings.value);
      return true;
    }
  }

  /** The data alone decide what a run does. */
  lemma EffectUnique(s: State, now: int, t: State, u: State)
    requires Effect(s, now, t) && Effect(s, now, u)
    ensures t == u
  {
    if MARKER !in s.settings {
      forall id | id in s.users
        ensures t.users[id] == u.users[id]
      {
        if s.users[id].None? {
          var ps := Owned(s.configs, id);
          OrderIrrelevant(s.policies, ps, ps, now, t.users[id], u.users[id]);
        }
      }
      assert t.users == u.users;
    }
  }

  /** The profiles of a user are those of the rows that name it as owner and are not copies. */
  lemma {:induction false} OwnedRows(configs: seq<Config>, user: int, p: Profile)
    ensures p in Owned(configs, user) <==>
            exists i :: 0 <= i < |configs| && configs[i] == Config(user, p, None)
  {
    if configs != [] {
      var rest := configs[1..];
      OwnedRows(rest, user, p);
      assert forall i :: 0 < i < |configs| ==> configs[i] == rest[i - 1];
      assert forall i :: 0 <= i < |rest| ==> rest[i] == configs[i + 1];
    }
  }

  /** A first run dates a user whose only profile has a stored WireGuard deadline after now, and likewise
      for the other types by `OneProfile`. */
  lemma BackfillDates(s: State, now: int, t: State, user: int, p: Profile, d: int)
    requires Effect(s, now, t) && MARKER !in s.settings && user in s.users && s.users[user] == None
    requires s.configs == [Config(user, p, None)] && p.vpn == "wireguard" && Strip(p.client) != "" && d > now
    requires (p.node, Lower(Strip(p.client))) in s.policies.wireguard
    requires s.policies.wireguard[(p.node, Lower(Strip(p.client)))] == Some(d)
    ensures user in t.users && t.users[user] == Some(d)
  {
    assert s.configs[1..] == [];
    assert Owned(s.configs, user) == [p];
    assert Lower("wireguard") == "wireguard";
    assert user in t.users;
    OneProfile(s.policies, p, now, t.users[user]);
  }

  // ----- any sequence of starts and changes -----

  /** A start of the panel, which may be cut short; any change of users, profiles, policies and other
      settings between starts; or the restore of a backup, which replaces the whole database. */
  datatype Event = Run(now: int, finishes: bool) | Edit(after: State) | Restore(backup: State)

  /** The panel itself does not touch the marker; a restore brings the one of the backup. */
  ghost predicate Follows(s: State, e: Event, t: State)
  {
    match e
    case Run(now, finishes) => if finishes then Effect(s, now, t) else t == s
    case Edit(after) => t == after && (MARKER in t.settings <==> MARKER in s.settings)
    case Restore(backup) => t == backup
  }

  ghost predicate History(ss: seq<State>, es: seq<Event>)
  {
    |ss| == |es| + 1 && forall i :: 0 <= i < |es| ==> Follows(ss[i], es[i], ss[i + 1])
  }

  /** A run that is not cut short changes the database if and only if there is no marker. */
  lemma RunChangesIff(s: State, now: int, t: State)
    requires Effect(s, now, t)
    ensures t != s <==> MARKER !in s.settings
    ensures MARKER in t.settings
    ensures MARKER !in s.settings ==>
              t.settings == s.settings["migration_user_access_until_backfill_done" := "1"] && DoneBefore(t)
  {
  }

  /** A backup without the marker was restored after event `first` and no run has finished since, nor was
      a backup with the marker restored. */
  predicate Reopened(es: seq<Event>, first: nat, n: nat)
    requires first <= n <= |es|
    decreases n
  {
    n > first &&
    match es[n - 1]
    case Run(_, finishes) => !finishes && Reopened(es, first, n - 1)
    case Edit(_) => Reopened(es, first, n - 1)
    case Restore(backup) => MARKER !in backup.settings
  }

  /** From when the marker is stored, it is missing exactly while a restore has taken it away. */
  lemma {:induction false} MarkerMissingIff(ss: seq<State>, es: seq<Event>, first: nat, n: nat)
    requires History(ss, es) && first <= n < |ss| && MARKER in ss[first].settings
    ensures MARKER !in ss[n].settings <==> Reopened(es, first, n)
    decreases n
  {
    if first < n {
      MarkerMissingIff(ss, es, first, n - 1);
      assert Follows(ss[n - 1], es[n - 1], ss[n]);
    }
  }

  /** The exact condition of the one-shot property: once the marker is stored, a later run changes
      something if and only if it finishes and a restored backup has taken the marker away. */
  lemma OneShotIff(ss: seq<State>, es: seq<Event>, first: nat, n: nat)
    requires History(ss, es) && first <= n < |es| && es[n].Run? && MARKER in ss[first].settings
    ensures ss[n + 1] != ss[n] <==> es[n].finishes && Reopened(es, first, n)
  {
    MarkerMissingIff(ss, es, first, n);
    assert Follows(ss[n], es[n], ss[n + 1]);
  }

  lemma {:induction false} ReopenedByRestore(es: seq<Event>, first: nat, n: nat)
    requires first <= n <= |es| && Reopened(es, first, n)
    ensures exists i :: first <= i < n && es[i].Restore? && MARKER !in es[i].backup.settings
    decreases n
  {
    if !es[n - 1].Restore? {
      ReopenedByRestore(es, first, n - 1);
    }
  }

  /** Without the restore of a backup older than the marker, no later run changes anything, whatever else
      happens in between. */
  lemma OneShot(ss: seq<State>, es: seq<Event>, first: nat, n: nat)
    requires History(ss, es) && first <= n < |es| && es[n].Run? && MARKER in ss[first].settings
    requires forall i :: first <= i < n && es[i].Restore? ==> MARKER in es[i].backup.settings
    ensures ss[n + 1] == ss[n]
  {
    OneShotIff(ss, es, first, n);
    if Reopened(es, first, n) {
      ReopenedByRestore(es, first, n);
    }
  }

  /** Between two runs that change anything lies the restore of a backup without the marker; and a run
      keeps every date that was set. */
  lemma RestoreBetweenChanges(ss: seq<State>, es: seq<Event>, first: nat, n: nat, user: int)
    requires History(ss, es) && first < n < |es| && es[first].Run? && es[n].Run?
    requires ss[first + 1] != ss[first] && ss[n + 1] != ss[n]
    ensures exists i :: first < i < n && es[i].Restore? && MARKER !in es[i].backup.settings
    ensures user in ss[first].users && ss[first].users[user].Some? ==>
              user in ss[first + 1].users && ss[first + 1].users[user] == ss[first].users[user]
  {
    assert Follows(ss[first], es[first], ss[first + 1]);
    RunChangesIff(ss[first], es[first].now, ss[first + 1]);
    OneShotIff(ss, es, first + 1, n);
    ReopenedByRestore(es, first + 1, n);
  }
}
