/** `migrations_lock` on a file-backed database: any number of processes and threads, every
    interleaving of their steps, exceptions and crashes included. */
module MigrationLock {
  import opened Common

  type Tid = nat
  type Pid = nat

  /** Which branch of the context manager an open entry came through. */
  datatype Kind = Outer | Nested

  /** Where a thread is inside `migrations_lock`.  Idle: outside it, or in the body it guards. */
  datatype At = Idle | Entered | Opened | Locked | Unlocking | Closing | Leaving

  datatype Thread = Thread(proc: Pid, at: At, stack: seq<Kind>)

  /** The RLock of a process. */
  datatype Guard = Free | Held(owner: Tid, count: nat)

  /** `file` is the holder of the flock; the counters say how often it was taken, released by the
      code, and dropped by the kernel when its process died. */
  datatype Sys = Sys(
    threads: map<Tid, Thread>,
    guard: map<Pid, Guard>,
    depth: map<Pid, nat>,
    file: Option<Tid>,
    taken: nat, released: nat, dropped: nat)

  datatype Action =
    | Acquire | EnterNested | OpenFile | OpenFails | TakeFile | TakeFails | StartBody
    | LeaveBody | Unlock | Close | ReleaseGuard

  predicate WellFormed(s: Sys)
  {
    forall t :: t in s.threads ==> s.threads[t].proc in s.guard && s.threads[t].proc in s.depth
  }

  function Bit(b: bool): nat { if b then 1 else 0 }

  /** `with _migrations_lock_guard`: an RLock may be taken again by the thread that holds it. */
  predicate CanAcquire(s: Sys, t: Tid)
    requires WellFormed(s) && t in s.threads
  {
    var g := s.guard[s.threads[t].proc];
    g.Free? || g.owner == t
  }

  predicate Enabled(s: Sys, t: Tid, a: Action)
    requires WellFormed(s) && t in s.threads
  {
    var th := s.threads[t];
    match a
    case Acquire => th.at == Idle && CanAcquire(s, t)
    case EnterNested => th.at == Entered && s.depth[th.proc] > 0
    case OpenFile => th.at == Entered && s.depth[th.proc] == 0
    case OpenFails => th.at == Entered && s.depth[th.proc] == 0
    case TakeFile => th.at == Opened && s.file == None
    case TakeFails => th.at == Opened
    case StartBody => th.at == Locked
    case LeaveBody => th.at == Idle && th.stack != []
    case Unlock => th.at == Unlocking
    case Close => th.at == Closing
    case ReleaseGuard => th.at == Leaving
  }

  function MoveTo(s: Sys, t: Tid, at: At): Sys
    requires t in s.threads
  {
    s.(threads := s.threads[t := s.threads[t].(at := at)])
  }

  function Restack(s: Sys, t: Tid, at: At, stack: seq<Kind>, depth: nat): Sys
    requires t in s.threads
  {
    s.(threads := s.threads[t := s.threads[t].(at := at, stack := stack)],
       depth := s.depth[s.threads[t].proc := depth])
  }

  function SetGuard(s: Sys, p: Pid, g: Guard): Sys { s.(guard := s.guard[p := g]) }

  /** One step of one thread.  Leaving the body is the same step for a normal return and for an
      exception: the source does it in `finally`. */
  function Step(s: Sys, t: Tid, a: Action): Sys
    requires WellFormed(s) && t in s.threads && Enabled(s, t, a)
  {
    var th := s.threads[t];
    var p := th.proc;
    match a
    case Acquire =>
      var g := s.guard[p];
      SetGuard(MoveTo(s, t, Entered), p, Held(t, if g.Free? then 1 else g.count + 1))
    case EnterNested => Restack(s, t, Idle, th.stack + [Nested], s.depth[p] + 1)
    case OpenFile => MoveTo(s, t, Opened)
    case OpenFails => MoveTo(s, t, Leaving)
    case TakeFile => MoveTo(s, t, Locked).(file := Some(t), taken := s.taken + 1)
    case TakeFails => MoveTo(s, t, Closing)
    case StartBody => Restack(s, t, Idle, th.stack + [Outer], 1)
    case LeaveBody =>
      var rest := th.stack[..|th.stack| - 1];
      if th.stack[|th.stack| - 1] == Nested
      then Restack(s, t, Leaving, rest, if s.depth[p] > 0 then s.depth[p] - 1 else 0)
      else Restack(s, t, Unlocking, rest, 0)
    case Unlock => MoveTo(s, t, Closing).(file := None, released := s.released + 1)
    case Close => MoveTo(s, t, Leaving)
    case ReleaseGuard =>
      var g := s.guard[p];
      SetGuard(MoveTo(s, t, Idle), p, if g.Held? && g.count > 1 then Held(t, g.count - 1) else Free)
  }

  /** A process dies: its threads, its RLock and its depth are gone, and the kernel drops its flock. */
  function Crash(s: Sys, p: Pid): Sys
    requires WellFormed(s)
  {
    var mine := s.file.Some? && s.file.value in s.threads && s.threads[s.file.value].proc == p;
    s.(threads := map t | t in s.threads :: if s.threads[t].proc == p then Thread(p, Idle, []) else s.threads[t],
       guard := if p in s.guard then s.guard[p := Free] else s.guard,
       depth := if p in s.depth then s.depth[p := 0] else s.depth,
       file := if mine then None else s.file,
       dropped := s.dropped + Bit(mine))
  }

  ghost predicate Next(s: Sys, u: Sys)
    requires WellFormed(s)
  {
    || (exists t, a :: t in s.threads && Enabled(s, t, a) && u == Step(s, t, a))
    || (exists p :: u == Crash(s, p))
  }

  /** Processes and threads that have not touched the lock yet. */
  predicate Start(s: Sys)
  {
    && WellFormed(s)
    && (forall t :: t in s.threads ==> s.threads[t].at == Idle && s.threads[t].stack == [])
    && (forall p :: p in s.guard ==> s.guard[p] == Free)
    && (forall p :: p in s.depth ==> s.depth[p] == 0)
    && s.file == None && s.taken == s.released == s.dropped == 0
  }

  // ----- the invariant -----

  /** Levels of the RLock that the thread accounts for. */
  function Levels(th: Thread): nat { |th.stack| + Bit(th.at != Idle) }

  predicate HasFile(th: Thread) { th.stack != [] || th.at == Locked || th.at == Unlocking }

  predicate ThreadOk(s: Sys, t: Tid)
    requires WellFormed(s) && t in s.threads
  {
    var th := s.threads[t];
    && (Levels(th) > 0 ==> s.guard[th.proc] == Held(t, Levels(th)) && s.depth[th.proc] == |th.stack|)
    && (th.at in {Opened, Locked, Unlocking, Closing} ==> th.stack == [])
    && (forall i :: 0 <= i < |th.stack| ==> (th.stack[i] == Outer <==> i == 0))
    && (HasFile(th) <==> s.file == Some(t))
  }

  /** A taken RLock belongs to a thread of its process that accounts for it; a free one means that
      nobody of the process is inside. */
  predicate GuardOk(s: Sys, p: Pid)
    requires p in s.guard
  {
    match s.guard[p]
    case Held(t, _) => t in s.threads && s.threads[t].proc == p && Levels(s.threads[t]) > 0
    case Free => p in s.depth ==> s.depth[p] == 0
  }

  predicate FileOk(s: Sys)
  {
    (s.file.Some? ==> s.file.value in s.threads) && s.taken == s.released + s.dropped + Bit(s.file.Some?)
  }

  ghost predicate Inv(s: Sys)
  {
    && WellFormed(s)
    && (forall t :: t in s.threads ==> ThreadOk(s, t))
    && (forall p :: p in s.guard ==> GuardOk(s, p))
    && FileOk(s)
  }

  /** A thread that can move inside the lock holds the RLock of its process or is about to. */
  lemma MoverHolds(s: Sys, t: Tid, a: Action)
    requires Inv(s) && t in s.threads && Enabled(s, t, a)
    ensures a != Acquire ==> Levels(s.threads[t]) > 0 && s.guard[s.threads[t].proc] == Held(t, Levels(s.threads[t]))
    ensures forall v :: v in s.threads && v != t && s.threads[v].proc == s.threads[t].proc ==> Levels(s.threads[v]) == 0
  {
    var p := s.threads[t].proc;
    assert ThreadOk(s, t) && GuardOk(s, p);
    forall v | v in s.threads && v != t && s.threads[v].proc == p
      ensures Levels(s.threads[v]) == 0
    {
      assert ThreadOk(s, v);
    }
  }

  lemma StepFrame(s: Sys, t: Tid, a: Action)
    requires WellFormed(s) && t in s.threads && Enabled(s, t, a)
    ensures var u := Step(s, t, a);
            && u.threads.Keys == s.threads.Keys && u.guard.Keys == s.guard.Keys && u.depth.Keys == s.depth.Keys
            && u.threads[t].proc == s.threads[t].proc
            && (forall v :: v in s.threads && v != t ==> u.threads[v] == s.threads[v])
            && (forall q :: q in s.guard && q != s.threads[t].proc ==> u.guard[q] == s.guard[q])
            && (forall q :: q in s.depth && q != s.threads[t].proc ==> u.depth[q] == s.depth[q])
            && WellFormed(u)
  {
  }

  lemma StepFile(s: Sys, t: Tid, a: Action)
    requires WellFormed(s) && t in s.threads && Enabled(s, t, a) && ThreadOk(s, t) && FileOk(s)
    ensures var u := Step(s, t, a);
            && FileOk(u)
            && (a == TakeFile ==> s.file == None && u.file == Some(t))
            && (a == Unlock ==> s.file == Some(t) && u.file == None)
            && (a != TakeFile && a != Unlock ==> u.file == s.file)
  {
    StepFrame(s, t, a);
  }

  lemma StepOther(s: Sys, t: Tid, a: Action, v: Tid)
    requires Inv(s) && t in s.threads && Enabled(s, t, a) && v in s.threads && v != t
    ensures WellFormed(Step(s, t, a)) && ThreadOk(Step(s, t, a), v)
  {
    assert ThreadOk(s, v) && ThreadOk(s, t);
    StepFrame(s, t, a);
    StepFile(s, t, a);
    MoverHolds(s, t, a);
  }

  lemma StepOwnLeave(s: Sys, t: Tid)
    requires WellFormed(s) && t in s.threads && Enabled(s, t, LeaveBody) && ThreadOk(s, t) && FileOk(s)
    requires Levels(s.threads[t]) > 0
    ensures WellFormed(Step(s, t, LeaveBody)) && ThreadOk(Step(s, t, LeaveBody), t)
  {
    StepFrame(s, t, LeaveBody);
    StepFile(s, t, LeaveBody);
    var th := s.threads[t];
    assert th.stack[|th.stack| - 1] == Outer <==> |th.stack| == 1;
  }

  lemma StepOwnGuard(s: Sys, t: Tid, a: Action)
    requires WellFormed(s) && t in s.threads && Enabled(s, t, a) && ThreadOk(s, t) && FileOk(s)
    requires GuardOk(s, s.threads[t].proc)
    requires a == Acquire || (a == ReleaseGuard && Levels(s.threads[t]) > 0)
    ensures WellFormed(Step(s, t, a)) && ThreadOk(Step(s, t, a), t)
  {
    StepFrame(s, t, a);
    StepFile(s, t, a);
  }

  lemma StepOwn(s: Sys, t: Tid, a: Action)
    requires WellFormed(s) && t in s.threads && Enabled(s, t, a) && ThreadOk(s, t) && FileOk(s)
    requires GuardOk(s, s.threads[t].proc)
    requires a != Acquire ==> Levels(s.threads[t]) > 0
    ensures WellFormed(Step(s, t, a)) && ThreadOk(Step(s, t, a), t)
  {
    if a == LeaveBody {
      StepOwnLeave(s, t);
    } else if a == Acquire || a == ReleaseGuard {
      StepOwnGuard(s, t, a);
    } else {
      StepFrame(s, t, a);
      StepFile(s, t, a);
    }
  }

  lemma StepGuard(s: Sys, t: Tid, a: Action, p: Pid)
    requires WellFormed(s) && t in s.threads && Enabled(s, t, a) && ThreadOk(s, t) && p in s.guard && GuardOk(s, p)
    requires a != Acquire ==> Levels(s.threads[t]) > 0
    ensures p in Step(s, t, a).guard && GuardOk(Step(s, t, a), p)
  {
    StepFrame(s, t, a);
  }

  lemma StepKeeps(s: Sys, t: Tid, a: Action)
    requires Inv(s) && t in s.threads && Enabled(s, t, a)
    ensures Inv(Step(s, t, a))
  {
    var u := Step(s, t, a);
    assert ThreadOk(s, t) && GuardOk(s, s.threads[t].proc);
    MoverHolds(s, t, a);
    StepFrame(s, t, a);
    StepFile(s, t, a);
    StepOwn(s, t, a);
    forall v | v in u.threads
      ensures ThreadOk(u, v)
    {
      if v != t {
        StepOther(s, t, a, v);
      }
    }
    forall p | p in u.guard
      ensures GuardOk(u, p)
    {
      StepGuard(s, t, a, p);
    }
  }

  /** The lock file is open in the thread. */
  predicate HasHandle(th: Thread) { th.stack != [] || th.at in {Opened, Locked, Unlocking, Closing} }

  /** It is opened by opening it and closed by closing it, whatever fails in between, and a thread outside
      the lock has it closed. */
  lemma HandleClosed(s: Sys, t: Tid, a: Action)
    requires Inv(s) && t in s.threads && Enabled(s, t, a)
    ensures var th, after := s.threads[t], Step(s, t, a).threads[t];
            && (a == OpenFile ==> !HasHandle(th) && HasHandle(after))
            && (a == Close ==> HasHandle(th) && !HasHandle(after))
            && (a != OpenFile && a != Close ==> (HasHandle(th) <==> HasHandle(after)))
            && (after.at == Idle && after.stack == [] ==> !HasHandle(after))
  {
    MoverHolds(s, t, a);
    assert ThreadOk(s, t);
    if a == LeaveBody {
      LeaveKeepsHandle(s, t);
    }
  }

  lemma LeaveKeepsHandle(s: Sys, t: Tid)
    requires WellFormed(s) && t in s.threads && Enabled(s, t, LeaveBody) && ThreadOk(s, t)
    ensures HasHandle(s.threads[t]) && HasHandle(Step(s, t, LeaveBody).threads[t])
  {
    var th := s.threads[t];
    assert th.stack[|th.stack| - 1] == Outer <==> |th.stack| == 1;
  }

  lemma CrashThread(s: Sys, p: Pid, v: Tid)
    requires WellFormed(s) && v in s.threads && ThreadOk(s, v)
    ensures WellFormed(Crash(s, p)) && ThreadOk(Crash(s, p), v)
  {
    var th := Crash(s, p).threads[v];
    assert s.threads[v].proc != p ==> th == s.threads[v];
  }

  lemma CrashGuard(s: Sys, p: Pid, q: Pid)
    requires Inv(s) && q in s.guard
    ensures q in Crash(s, p).guard && GuardOk(Crash(s, p), q)
  {
    assert GuardOk(s, q);
  }

  lemma CrashKeeps(s: Sys, p: Pid)
    requires Inv(s)
    ensures Inv(Crash(s, p))
  {
    var u := Crash(s, p);
    forall v | v in u.threads
      ensures WellFormed(u) && ThreadOk(u, v)
    {
      assert ThreadOk(s, v);
      CrashThread(s, p, v);
    }
    forall q | q in u.guard
      ensures GuardOk(u, q)
    {
      CrashGuard(s, p, q);
    }
  }

  /** A behaviour: any interleaving of steps and crashes. */
  ghost predicate Behaviour(b: seq<Sys>)
  {
    && b != [] && Start(b[0])
    && forall i :: 0 <= i < |b| - 1 ==> WellFormed(b[i]) && Next(b[i], b[i + 1])
  }

  lemma {:induction false} Reachable(b: seq<Sys>, n: nat)
    requires Behaviour(b) && n < |b|
    ensures Inv(b[n])
  {
    if n > 0 {
      Reachable(b, n - 1);
      var s, u := b[n - 1], b[n];
      NextKeeps(s, u);
    }
  }

  lemma NextKeeps(s: Sys, u: Sys)
    requires Inv(s) && Next(s, u)
    ensures Inv(u)
  {
    if exists t, a :: t in s.threads && Enabled(s, t, a) && u == Step(s, t, a) {
      var t, a :| t in s.threads && Enabled(s, t, a) && u == Step(s, t, a);
      StepKeeps(s, t, a);
    } else {
      var p :| u == Crash(s, p);
      CrashKeeps(s, p);
    }
  }

  // ----- what follows -----

  /** At most one thread of all processes is inside the body, and the depth of its process is its
      nesting. */
  lemma MutualExclusion(b: seq<Sys>, n: nat, t: Tid, v: Tid)
    requires Behaviour(b) && n < |b| && t in b[n].threads && v in b[n].threads
    requires b[n].threads[t].stack != [] && b[n].threads[v].stack != []
    ensures t == v
    ensures WellFormed(b[n]) && b[n].depth[b[n].threads[t].proc] == |b[n].threads[t].stack|
  {
    Reachable(b, n);
    assert ThreadOk(b[n], t) && ThreadOk(b[n], v);
  }

  /** A thread in the body can always enter again: it takes the RLock it holds, and then goes the
      nested way, never to the file lock it would block on. */
  lemma NestedNeverBlocks(b: seq<Sys>, n: nat, t: Tid)
    requires Behaviour(b) && n < |b| && t in b[n].threads && b[n].threads[t].stack != []
    ensures WellFormed(b[n])
    ensures b[n].threads[t].at in {Idle, Entered, Leaving}
    ensures b[n].threads[t].at == Idle ==> Enabled(b[n], t, Acquire)
    ensures b[n].threads[t].at == Entered ==> Enabled(b[n], t, EnterNested) && !Enabled(b[n], t, OpenFile)
  {
    Reachable(b, n);
    assert ThreadOk(b[n], t);
  }

  /** The file lock is given up once per time it was taken: by the thread that holds it when its
      outermost entry has left, or by the kernel when the process dies. */
  lemma ReleasedOnce(b: seq<Sys>, n: nat, t: Tid)
    requires Behaviour(b) && n + 1 < |b| && b[n].file == Some(t) && b[n + 1].file != Some(t)
    ensures t in b[n].threads && b[n + 1].file == None
    ensures || (&& b[n].threads[t].stack == [] && b[n].threads[t].at == Unlocking
                && b[n + 1].released == b[n].released + 1)
            || (b[n + 1].dropped == b[n].dropped + 1 && b[n + 1] == Crash(b[n], b[n].threads[t].proc))
    ensures b[n + 1].taken == b[n + 1].released + b[n + 1].dropped
  {
    Reachable(b, n);
    Reachable(b, n + 1);
    var s, u := b[n], b[n + 1];
    assert Next(s, u);
    if exists v, a :: v in s.threads && Enabled(s, v, a) && u == Step(s, v, a) {
      var v, a :| v in s.threads && Enabled(s, v, a) && u == Step(s, v, a);
      assert ThreadOk(s, v);
      StepFile(s, v, a);
    }
  }

  // ----- progress -----

  /** When nobody of its process holds the RLock and the file lock is free, a thread outside gets into the
      body in four steps of its own. */
  lemma FreeMeansEntry(b: seq<Sys>, n: nat, t: Tid)
    requires Behaviour(b) && n < |b| && t in b[n].threads && b[n].threads[t].at == Idle
    requires WellFormed(b[n]) && b[n].guard[b[n].threads[t].proc] == Free && b[n].file == None
    ensures Enabled(b[n], t, Acquire)
    ensures var s1 := Step(b[n], t, Acquire);
            && WellFormed(s1) && t in s1.threads && Enabled(s1, t, OpenFile)
            && var s2 := Step(s1, t, OpenFile);
               && WellFormed(s2) && t in s2.threads && Enabled(s2, t, TakeFile)
               && var s3 := Step(s2, t, TakeFile);
                  && WellFormed(s3) && t in s3.threads && Enabled(s3, t, StartBody)
                  && Step(s3, t, StartBody).threads[t] == Thread(b[n].threads[t].proc, Idle, [Outer])
                  && Step(s3, t, StartBody).file == Some(t)
  {
    Reachable(b, n);
    assert ThreadOk(b[n], t) && GuardOk(b[n], b[n].threads[t].proc);
    StepFrame(b[n], t, Acquire);
    var s1 := Step(b[n], t, Acquire);
    StepFrame(s1, t, OpenFile);
    var s2 := Step(s1, t, OpenFile);
    StepFrame(s2, t, TakeFile);
  }

  /** What a thread inside the lock can do next, if it does not wait for the file. */
  function Forward(th: Thread, depth: nat): Action
  {
    match th.at
    case Idle => LeaveBody
    case Entered => if depth > 0 then EnterNested else OpenFile
    case Opened => TakeFile
    case Locked => StartBody
    case Unlocking => Unlock
    case Closing => Close
    case Leaving => ReleaseGuard
  }

  /** No deadlock: whenever some thread is inside the lock, one of those inside it can go forward.  A thread
      waits for the file lock only while another one has it. */
  lemma SomeoneMoves(b: seq<Sys>, n: nat, t: Tid) returns (v: Tid)
    requires Behaviour(b) && n < |b| && t in b[n].threads && Levels(b[n].threads[t]) > 0
    ensures WellFormed(b[n]) && v in b[n].threads && Levels(b[n].threads[v]) > 0
    ensures Enabled(b[n], v, Forward(b[n].threads[v], b[n].depth[b[n].threads[v].proc]))
    ensures v == t || (b[n].threads[t].at == Opened && b[n].file == Some(v))
  {
    Reachable(b, n);
    var s := b[n];
    v := if s.threads[t].at == Opened && s.file.Some? then s.file.value else t;
    assert ThreadOk(s, t);
    assert ThreadOk(s, v);
  }
}
