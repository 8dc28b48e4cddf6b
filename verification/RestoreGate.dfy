/** Backup restore against scheduled background work: the two file locks of the gate, the pause, the
    replacement of the panel files and the delayed restart, in every interleaving. */
module RestoreGate {
  import opened Common

  /** A background step or a restore, with the worker process it runs in. */
  datatype Id = Id(worker: nat, number: nat)
  type Bid = Id
  type Rid = Id

  /** A background step: idle, holding the intent lock shared, holding both, running on the gate. */
  datatype StepAt = Quiet | WantsGate | HoldsBoth | Running

  /** A restore: idle, waiting for the intent lock, holding it, holding both, paused (the locks are
      stored for `resume_background_work`). */
  datatype RestoreAt = Idle | WantsIntent | HasIntent | HasBoth | Paused

  /** `lock` holds the intent lock exclusively, `gate` says whether it also holds the gate, `stored`
      whether both are in `_pause_fds` of the holder's worker; `timers` counts the restarts pending there
      and `restarting` says that one has been ordered.  `files` is the version of the panel files. */
  datatype Sys = Sys(
    steps: map<Bid, StepAt>, restores: map<Rid, RestoreAt>,
    lock: Option<Rid>, gate: bool, stored: bool,
    timers: nat, restarting: bool, files: nat)

  datatype Event =
    | StepIntent(b: Bid) | StepGate(b: Bid) | StepRun(b: Bid) | StepEnd(b: Bid)
    | Ask(r: Rid) | TakeIntent(r: Rid) | TakeGate(r: Rid) | Store(r: Rid) | GiveUp(r: Rid)
    | Replace(r: Rid) | Fail(r: Rid) | Schedule(r: Rid)
    | RestartFails | RestartOrdered | NewProcess | WorkerDies(w: nat)

  predicate SharesIntent(a: StepAt) { a == WantsGate || a == HoldsBoth }
  predicate SharesGate(a: StepAt) { a == HoldsBoth || a == Running }
  predicate HasLock(a: RestoreAt) { a == HasIntent || a == HasBoth || a == Paused }

  /** `resume_background_work`: give back whatever is stored. */
  function Resumed(s: Sys): Sys
  {
    if s.stored then s.(lock := None, gate := false, stored := false) else s
  }

  function Restore(s: Sys, r: Rid, at: RestoreAt): Sys { s.(restores := s.restores[r := at]) }

  function StepTo(s: Sys, b: Bid, at: StepAt): Sys { s.(steps := s.steps[b := at]) }

  predicate Enabled(s: Sys, e: Event)
  {
    match e
    case StepIntent(b) => b in s.steps && s.steps[b] == Quiet && s.lock == None
    case StepGate(b) => b in s.steps && s.steps[b] == WantsGate && !s.gate
    case StepRun(b) => b in s.steps && s.steps[b] == HoldsBoth
    case StepEnd(b) => b in s.steps && s.steps[b] == Running
    case Ask(r) => r in s.restores && s.restores[r] == Idle
    case TakeIntent(r) =>
      && r in s.restores && s.restores[r] == WantsIntent && s.lock == None
      && forall b :: b in s.steps ==> !SharesIntent(s.steps[b])
    case TakeGate(r) =>
      r in s.restores && s.restores[r] == HasIntent && !s.gate && forall b :: b in s.steps ==> !SharesGate(s.steps[b])
    case Store(r) => r in s.restores && s.restores[r] == HasBoth
    case GiveUp(r) => r in s.restores && (s.restores[r] == WantsIntent || s.restores[r] == HasIntent)
    case Replace(r) => r in s.restores && s.restores[r] == Paused
    case Fail(r) => r in s.restores && s.restores[r] == Paused
    case Schedule(r) => r in s.restores && s.restores[r] == Paused
    case RestartFails => s.timers > 0
    case RestartOrdered => s.timers > 0
    case NewProcess => true
    case WorkerDies(w) => true
  }

  /** What is left when the locks of the holder are dropped. */
  function Dropped(s: Sys): Sys { s.(lock := None, gate := false, stored := false, timers := 0, restarting := false) }

  /** One step.  When a worker dies alone, or the whole panel starts anew after a restart or a crash, the
      kernel drops the locks of what died; the timers die with the worker. */
  function Next(s: Sys, e: Event): Sys
    requires Enabled(s, e)
  {
    match e
    case StepIntent(b) => StepTo(s, b, WantsGate)
    case StepGate(b) => StepTo(s, b, HoldsBoth)
    case StepRun(b) => StepTo(s, b, Running)
    case StepEnd(b) => StepTo(s, b, Quiet)
    case Ask(r) => Restore(s, r, WantsIntent)
    case TakeIntent(r) => Restore(s, r, HasIntent).(lock := Some(r))
    case TakeGate(r) => Restore(s, r, HasBoth).(gate := true)
    case Store(r) => Restore(s, r, Paused).(stored := true)
    case GiveUp(r) =>
      if s.restores[r] == HasIntent then Restore(s, r, Idle).(lock := None) else Restore(s, r, Idle)
    case Replace(r) => s.(files := s.files + 1)
    case Fail(r) => Resumed(Restore(s, r, Idle))
    case Schedule(r) => Restore(s, r, Idle).(timers := s.timers + 1)
    case RestartFails => Resumed(s).(timers := s.timers - 1)
    case RestartOrdered => s.(timers := s.timers - 1, restarting := true)
    case NewProcess =>
      Dropped(s.(steps := map b | b in s.steps :: Quiet, restores := map r | r in s.restores :: Idle))
    case WorkerDies(w) =>
      var t := s.(steps := map b | b in s.steps :: if b.worker == w then Quiet else s.steps[b],
                  restores := map r | r in s.restores :: if r.worker == w then Idle else s.restores[r]);
      if s.lock.Some? && s.lock.value.worker == w then Dropped(t) else t
  }

  predicate Start(s: Sys)
  {
    && (forall b :: b in s.steps ==> s.steps[b] == Quiet)
    && (forall r :: r in s.restores ==> s.restores[r] == Idle)
    && s.lock == None && !s.gate && !s.stored && s.timers == 0 && !s.restarting
  }

  // ----- the invariant -----

  predicate RestoreOk(s: Sys, r: Rid)
    requires r in s.restores
  {
    var at := s.restores[r];
    && (HasLock(at) ==> s.lock == Some(r) && s.timers == 0 && !s.restarting)
    && (HasLock(at) ==> s.stored == (at == Paused) && s.gate == (at != HasIntent))
    && (s.lock == Some(r) ==> HasLock(at) || s.timers + (if s.restarting then 1 else 0) == 1)
  }

  predicate StepOk(s: Sys, b: Bid)
    requires b in s.steps
  {
    (SharesIntent(s.steps[b]) ==> s.lock == None) && (SharesGate(s.steps[b]) ==> !s.gate)
  }

  predicate LocksOk(s: Sys)
  {
    && (s.lock.Some? ==> s.lock.value in s.restores)
    && (s.gate ==> s.lock.Some?)
    && (s.stored ==> s.gate)
    && (s.timers > 0 || s.restarting ==> s.stored)
    && !(s.timers > 0 && s.restarting) && s.timers <= 1
  }

  ghost predicate Inv(s: Sys)
  {
    && (forall r :: r in s.restores ==> RestoreOk(s, r))
    && (forall b :: b in s.steps ==> StepOk(s, b))
    && LocksOk(s)
  }

  lemma NextLocks(s: Sys, e: Event)
    requires Inv(s) && Enabled(s, e)
    ensures LocksOk(Next(s, e))
  {
    if s.lock.Some? {
      assert RestoreOk(s, s.lock.value);
    }
    match e
    case Store(r) => assert RestoreOk(s, r);
    case TakeGate(r) => assert RestoreOk(s, r);
    case GiveUp(r) => assert RestoreOk(s, r);
    case Fail(r) => assert RestoreOk(s, r);
    case Schedule(r) => assert RestoreOk(s, r);
    case _ =>
  }

  lemma NextRestore(s: Sys, e: Event, r: Rid)
    requires Inv(s) && Enabled(s, e) && r in s.restores
    ensures r in Next(s, e).restores && RestoreOk(Next(s, e), r)
  {
    assert RestoreOk(s, r);
    if s.lock.Some? {
      assert RestoreOk(s, s.lock.value);
    }
    match e
    case Store(q) => assert RestoreOk(s, q);
    case TakeGate(q) => assert RestoreOk(s, q);
    case GiveUp(q) => assert RestoreOk(s, q);
    case Fail(q) => assert RestoreOk(s, q);
    case Schedule(q) => assert RestoreOk(s, q);
    case _ =>
  }

  lemma NextStep(s: Sys, e: Event, b: Bid)
    requires Inv(s) && Enabled(s, e) && b in s.steps
    ensures b in Next(s, e).steps && StepOk(Next(s, e), b)
  {
    assert StepOk(s, b);
  }

  lemma NextKeeps(s: Sys, e: Event)
    requires Inv(s) && Enabled(s, e)
    ensures Inv(Next(s, e))
  {
    var u := Next(s, e);
    NextLocks(s, e);
    forall r | r in u.restores
      ensures RestoreOk(u, r)
    {
      assert r in s.restores;
      NextRestore(s, e, r);
    }
    forall b | b in u.steps
      ensures StepOk(u, b)
    {
      assert b in s.steps;
      NextStep(s, e, b);
    }
  }

  ghost predicate Behaviour(ss: seq<Sys>, es: seq<Event>)
  {
    && |ss| == |es| + 1 && Start(ss[0])
    && forall i :: 0 <= i < |es| ==> Enabled(ss[i], es[i]) && ss[i + 1] == Next(ss[i], es[i])
  }

  lemma {:induction false} Reachable(ss: seq<Sys>, es: seq<Event>, n: nat)
    requires Behaviour(ss, es) && n < |ss|
    ensures Inv(ss[n])
  {
    if n > 0 {
      Reachable(ss, es, n - 1);
      NextKeeps(ss[n - 1], es[n - 1]);
    }
  }

  // ----- what follows -----

  /** Panel files are replaced only while background work is paused and no step runs; and no other
      restore is past its first lock, even if restores overlap. */
  lemma ReplacedOnlyWhilePaused(ss: seq<Sys>, es: seq<Event>, n: nat)
    requires Behaviour(ss, es) && n < |es| && ss[n + 1].files != ss[n].files
    ensures ss[n].stored && ss[n].gate
    ensures forall b :: b in ss[n].steps ==> !SharesGate(ss[n].steps[b]) && !SharesIntent(ss[n].steps[b])
    ensures es[n].Replace? && forall r :: r in ss[n].restores && HasLock(ss[n].restores[r]) ==> r == es[n].r
  {
    Reachable(ss, es, n);
    assert Enabled(ss[n], es[n]);
    var r := es[n].r;
    assert RestoreOk(ss[n], r);
    forall b | b in ss[n].steps
      ensures !SharesGate(ss[n].steps[b]) && !SharesIntent(ss[n].steps[b])
    {
      assert StepOk(ss[n], b);
    }
    forall q | q in ss[n].restores && HasLock(ss[n].restores[q])
      ensures q == r
    {
      assert RestoreOk(ss[n], q);
    }
  }

  /** Background work is never left paused unless a restore is running, a restart is pending, or one
      has been ordered. */
  lemma NeverLeftPaused(ss: seq<Sys>, es: seq<Event>, n: nat)
    requires Behaviour(ss, es) && n < |ss| && ss[n].stored
    ensures (exists r :: r in ss[n].restores && ss[n].restores[r] == Paused) || ss[n].timers > 0 || ss[n].restarting
  {
    Reachable(ss, es, n);
    assert RestoreOk(ss[n], ss[n].lock.value);
  }

  /** A step that has the intent lock never waits for the gate. */
  lemma StepNeverWaits(ss: seq<Sys>, es: seq<Event>, n: nat, b: Bid)
    requires Behaviour(ss, es) && n < |ss| && b in ss[n].steps && ss[n].steps[b] == WantsGate
    ensures Enabled(ss[n], StepGate(b))
  {
    Reachable(ss, es, n);
    assert StepOk(ss[n], b);
  }

  // ----- progress -----

  /** When nobody holds or waits for the locks, a restore goes through: it pauses background work, replaces
      the files, orders the restart, and the new process starts with everything released. */
  lemma RestoreGoesThrough(ss: seq<Sys>, es: seq<Event>, n: nat, r: Rid)
    requires Behaviour(ss, es) && n < |ss| && r in ss[n].restores && ss[n].restores[r] == Idle && ss[n].lock == None
    requires forall b :: b in ss[n].steps ==> ss[n].steps[b] == Quiet
    ensures var p := Paused_(ss[n], r);
            && p.Some? && p.value.stored && p.value.gate && p.value.restores[r] == Paused
            && Enabled(p.value, Replace(r)) && Next(p.value, Replace(r)).files == ss[n].files + 1
            && Enabled(Next(p.value, Replace(r)), Schedule(r))
            && Enabled(Next(Next(p.value, Replace(r)), Schedule(r)), RestartOrdered)
            && Next(Next(p.value, Replace(r)), Schedule(r)).stored
  {
    Reachable(ss, es, n);
    PausedIs(ss[n], r);
  }

  lemma PausedIs(s: Sys, r: Rid)
    requires r in s.restores && s.restores[r] == Idle && s.lock == None && !s.gate
    requires forall b :: b in s.steps ==> s.steps[b] == Quiet
    ensures Paused_(s, r) ==
            Some(s.(restores := s.restores[r := Paused], lock := Some(r), gate := true, stored := true))
  {
    var m := s.restores;
    assert m[r := WantsIntent][r := HasIntent] == m[r := HasIntent];
    assert m[r := HasIntent][r := HasBoth] == m[r := HasBoth];
    assert m[r := HasBoth][r := Paused] == m[r := Paused];
  }

  /** The state after the steps that pause background work, if each of them is possible. */
  function Paused_(s: Sys, r: Rid): Option<Sys>
  {
    if !Enabled(s, Ask(r)) then None
    else
      var s1 := Next(s, Ask(r));
      if !Enabled(s1, TakeIntent(r)) then None
      else
        var s2 := Next(s1, TakeIntent(r));
        if !Enabled(s2, TakeGate(r)) then None
        else
          var s3 := Next(s2, TakeGate(r));
          if !Enabled(s3, Store(r)) then None else Some(Next(s3, Store(r)))
  }

  /** A failed restore, and a restart that fails, let background work run again. */
  lemma FailureResumes(ss: seq<Sys>, es: seq<Event>, n: nat, r: Rid, b: Bid)
    requires Behaviour(ss, es) && n < |ss| && r in ss[n].restores && ss[n].restores[r] == Paused
    requires b in ss[n].steps && ss[n].steps[b] == Quiet
    ensures Enabled(ss[n], Fail(r)) && Enabled(Next(ss[n], Fail(r)), StepIntent(b))
    ensures var s := Next(ss[n], Schedule(r)); Enabled(s, RestartFails) && Enabled(Next(s, RestartFails), StepIntent(b))
    ensures !Enabled(ss[n], StepIntent(b)) && !Enabled(Next(ss[n], Schedule(r)), StepIntent(b))
  {
    Reachable(ss, es, n);
    assert RestoreOk(ss[n], r);
  }
}
