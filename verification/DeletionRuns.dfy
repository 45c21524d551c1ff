/** What holds at every state of every deletion run. */
module DeletionRuns {
  import opened Manifests
  import opened Closures
  import opened Sums
  import opened Locks
  import opened Deletion

  // ----- the order of deletions

  ghost predicate ParentsDeleted(job: Job, s: State, n: Ref)
  {
    n in job.parents && forall p | p in job.parents[n] :: p in s.phases && s.phases[p].Deleted?
  }

  /** What the phase of a manifest says about its batch, its parents and the registry's answer. */
  ghost predicate InOrder(job: Job, s: State, n: Ref)
    requires n in job.level && n in s.phases
  {
    var phase := s.phases[n];
    && (job.level[n] >= s.started ==> phase.Waiting?)
    && (job.level[n] + 1 < s.started ==> phase.Settled())
    && (phase.Active() || phase.Deleted? || phase.Failed? ==> ParentsDeleted(job, s, n))
    && (phase.Blocked? ==> HasSparedParent(job, s, n))
    && (phase.Deleted? ==> n in job.accepts)
    && (phase.Restoring? || phase.Failed? ==> n !in job.accepts || s.cancelled)
    && (phase.Failed? && !s.cancelled ==> n in s.failures)
    && (n in s.failures ==> phase.Failed?)
  }

  ghost predicate Orderly(job: Job, s: State)
  {
    && Keyed(job, s) && s.started <= job.rounds && s.failures <= job.level.Keys
    && forall n {:trigger InOrder(job, s, n)} | n in job.level :: InOrder(job, s, n)
  }

  /** The deleted manifests, each once, each after all its parents. */
  ghost predicate ParentsFirst(job: Job, deleted: seq<Ref>)
  {
    && Distinct(deleted)
    && forall i, p | 0 <= i < |deleted| && deleted[i] in job.parents && p in job.parents[deleted[i]] ::
         p in deleted[..i]
  }

  ghost predicate Logged(s: State)
  {
    forall n :: n in s.deleted <==> n in s.phases && s.phases[n].Deleted?
  }

  function Actor(e: Event): Option<Ref>
  {
    if e.Cancel? || e.NextBatch? then None else Some(e.ref)
  }

  lemma OthersStay(job: Job, s: State, e: Event)
    requires Enabled(job, s, e)
    ensures Next(job, s, e).phases.Keys == s.phases.Keys
    ensures forall n | n in s.phases && Actor(e) != Some(n) :: Next(job, s, e).phases[n] == s.phases[n]
    ensures forall n | n in s.phases && s.phases[n].Settled() :: Next(job, s, e).phases[n] == s.phases[n]
    ensures s.cancelled ==> Next(job, s, e).cancelled
    ensures e.NextBatch? || Next(job, s, e).started == s.started
    ensures e.Cancel? || Next(job, s, e).cancelled == s.cancelled
    ensures e.Finish? || Next(job, s, e).failures == s.failures
  {
  }

  lemma ParentsStay(job: Job, s: State, e: Event, n: Ref)
    requires Enabled(job, s, e)
    ensures ParentsDeleted(job, s, n) ==> ParentsDeleted(job, Next(job, s, e), n)
    ensures HasSparedParent(job, s, n) ==> HasSparedParent(job, Next(job, s, e), n)
  {
    OthersStay(job, s, e);
    hide Enabled, Next;
    var t := Next(job, s, e);
    if HasSparedParent(job, s, n) {
      var p :| p in job.parents[n] && p in s.phases && s.phases[p].Spared();
      assert t.phases[p].Spared();
    }
  }

  lemma StartedParent(job: Job, s: State, n: Ref, p: Ref)
    requires ValidJob(job) && Orderly(job, s) && InPlay(job, s, n) && !HasSparedParent(job, s, n) && p in job.parents[n]
    ensures p in s.phases && s.phases[p].Deleted?
  {
    assert InOrder(job, s, p);
    hide OwnLocks, ParentsDeleted, Orderly;
    assert s.phases[p].Settled();
  }

  /** A manifest is only started once all its parents are deleted. */
  lemma StartedParents(job: Job, s: State, n: Ref)
    requires ValidJob(job) && Orderly(job, s) && InPlay(job, s, n) && !HasSparedParent(job, s, n)
    ensures ParentsDeleted(job, s, n)
  {
    hide OwnLocks;
    forall p | p in job.parents[n] ensures p in s.phases && s.phases[p].Deleted? {
      StartedParent(job, s, n, p);
    }
  }

  lemma InOrderOther(job: Job, s: State, e: Event, n: Ref)
    requires Enabled(job, s, e) && n in job.level && n in s.phases && InOrder(job, s, n)
    requires Actor(e) != Some(n)
    ensures n in Next(job, s, e).phases && InOrder(job, Next(job, s, e), n)
  {
    OthersStay(job, s, e);
    ParentsStay(job, s, e, n);
    if e.NextBatch? || e.Finish? {
    } else {
      hide Enabled, Next, ParentsDeleted, HasSparedParent;
    }
  }

  /** The moves a worker can make. */
  lemma WorkerMoves(job: Job, s: State, e: Event, n: Ref)
    requires Enabled(job, s, e) && Actor(e) == Some(n)
    ensures InPlay(job, s, n) && n in Next(job, s, e).phases
    ensures var before, after := s.phases[n], Next(job, s, e).phases[n];
            && !before.Settled() && !after.Waiting?
            && (before.Waiting? ==> after.Blocked? == HasSparedParent(job, s, n))
            && (before.Active() ==> !after.Blocked?)
            && (after.Deleted? ==> n in job.accepts)
            && (after.Restoring? || after.Failed? ==> before.Restoring? || n !in job.accepts || s.cancelled)
  {
  }

  lemma WorkerReports(job: Job, s: State, e: Event, n: Ref)
    requires Enabled(job, s, e) && Actor(e) == Some(n)
    ensures var t := Next(job, s, e);
            && n in s.phases && n in t.phases && s.failures <= t.failures <= s.failures + {n}
            && (t.phases[n].Failed? ==> s.cancelled || n in t.failures)
            && (n in t.failures ==> n in s.failures || t.phases[n].Failed?)
            && t.deleted == (if t.phases[n].Deleted? then s.deleted + [n] else s.deleted)
            && (t.phases[n].Deleted? ==> s.phases[n].Requesting?)
  {
  }

  lemma InOrderActor(job: Job, s: State, e: Event, n: Ref)
    requires ValidJob(job) && Orderly(job, s) && Enabled(job, s, e) && Actor(e) == Some(n)
    ensures n in job.level && n in Next(job, s, e).phases && InOrder(job, Next(job, s, e), n)
  {
    hide Enabled, Next, ParentsDeleted, HasSparedParent, ValidJob;
    WorkerMoves(job, s, e, n);
    WorkerReports(job, s, e, n);
    assert InOrder(job, s, n);
    OthersStay(job, s, e);
    ParentsStay(job, s, e, n);
    if !HasSparedParent(job, s, n) {
      StartedParents(job, s, n);
    }
    hide Orderly;
  }

  lemma StepOrderly(job: Job, s: State, e: Event)
    requires ValidJob(job) && Orderly(job, s) && Enabled(job, s, e)
    ensures Orderly(job, Next(job, s, e))
  {
    var t := Next(job, s, e);
    OthersStay(job, s, e);
    forall n | n in job.level ensures InOrder(job, t, n) {
      assert InOrder(job, s, n);
      if Actor(e) == Some(n) {
        InOrderActor(job, s, e, n);
      } else {
        InOrderOther(job, s, e, n);
      }
    }
    hide InOrder, ValidJob;
  }

  lemma StepLogged(job: Job, s: State, e: Event)
    requires ValidJob(job) && Orderly(job, s) && Enabled(job, s, e)
    requires Logged(s) && ParentsFirst(job, s.deleted)
    ensures Logged(Next(job, s, e)) && ParentsFirst(job, Next(job, s, e).deleted)
  {
    hide Enabled, Next, ParentsFirst, ParentsDeleted, HasSparedParent, ValidJob;
    OthersStay(job, s, e);
    var t := Next(job, s, e);
    if Actor(e).Some? {
      var n := e.ref;
      WorkerMoves(job, s, e, n);
      WorkerReports(job, s, e, n);
      assert InOrder(job, s, n);
      hide Orderly, Logged;
      LoggedStep(s, t, n);
      if t.phases[n].Deleted? {
        LogOne(job, s, n);
      }
    } else {
      ClockMoves(job, s, e);
    }
  }

  lemma ClockMoves(job: Job, s: State, e: Event)
    requires Enabled(job, s, e) && Actor(e).None?
    ensures Next(job, s, e).phases == s.phases && Next(job, s, e).deleted == s.deleted
  {
  }

  lemma LoggedStep(s: State, t: State, n: Ref)
    requires Logged(s) && n in s.phases && t.phases.Keys == s.phases.Keys && !s.phases[n].Deleted?
    requires forall m | m in s.phases && m != n :: t.phases[m] == s.phases[m]
    requires t.deleted == if t.phases[n].Deleted? then s.deleted + [n] else s.deleted
    ensures Logged(t)
  {
  }

  lemma LogOne(job: Job, s: State, n: Ref)
    requires Logged(s) && ParentsFirst(job, s.deleted) && ParentsDeleted(job, s, n)
    requires n in s.phases && s.phases[n].Requesting?
    ensures ParentsFirst(job, s.deleted + [n])
  {
    var log := s.deleted + [n];
    forall i, p | 0 <= i < |log| && log[i] in job.parents && p in job.parents[log[i]] ensures p in log[..i] {
      if i < |s.deleted| {
        assert log[..i] == s.deleted[..i];
      } else {
        assert log[..i] == s.deleted;
      }
    }
  }

  // ----- what is still there

  /** Only manifests of the job are gone, and what was confirmed deleted is gone. */
  ghost predicate Accounted(before: State, s: State)
  {
    && s.present <= before.present
    && (forall n | n in before.present && n !in s.present ::
          n in s.phases && (s.phases[n].Deleted? || s.phases[n].Restoring? || s.phases[n].Failed?))
    && (forall n | n in s.phases && s.phases[n].Deleted? :: n !in s.present)
  }

  lemma WorkerRemoves(job: Job, s: State, e: Event)
    requires Enabled(job, s, e)
    ensures Actor(e).None? ==> Next(job, s, e).present == s.present && Next(job, s, e).phases == s.phases
    ensures Actor(e).Some? ==>
              var n, t := Actor(e).value, Next(job, s, e);
              && n in s.phases && n in t.phases
              && s.present - {n} <= t.present <= s.present
              && (t.phases[n].Deleted? ==> n !in t.present)
              && (n in s.present && n !in t.present ==> t.phases[n].Deleted? || t.phases[n].Restoring?)
              && (s.phases[n].Restoring? ==> t.phases[n].Restoring? || t.phases[n].Failed?)
  {
  }

  /** A manifest that is gone before its request was answered was not there to begin with. */
  lemma StepAccounted(job: Job, before: State, s: State, e: Event)
    requires Enabled(job, s, e) && Accounted(before, s)
    ensures Accounted(before, Next(job, s, e))
  {
    OthersStay(job, s, e);
    WorkerRemoves(job, s, e);
    hide Enabled, Next;
  }

  // ----- locks

  ghost predicate Owed(before: State, targets: seq<Target>, removed: seq<Removed>)
  {
    forall r | r in removed :: r.target in targets && r.relock == RelockOf(FlagsOf(before, r.target))
  }

  ghost predicate Remembered(before: State, removed: seq<Removed>, t: Target)
  {
    Removed(t, RelockOf(FlagsOf(before, t))) in removed
  }

  /** As it was, or unlocked and noted for restoring. */
  ghost predicate Intact(before: State, s: State, removed: seq<Removed>, t: Target)
  {
    FlagsOf(s, t) == FlagsOf(before, t) || (FlagsOf(s, t) == ENABLED && Remembered(before, removed, t))
  }

  /** As locked as it was, or still to be restored, or its restoring failed. */
  ghost predicate Recovering(before: State, s: State, removed: seq<Removed>, t: Target)
  {
    && NoNewLocks(FlagsOf(before, t), FlagsOf(s, t))
    && (SameLocks(FlagsOf(before, t), FlagsOf(s, t)) || t in s.unrestored || Remembered(before, removed, t))
  }

  /** What the phase of a manifest says about the locks to take off it. */
  ghost predicate LocksSafe(before: State, s: State, targets: seq<Target>, phase: Phase)
  {
    match phase
    case Waiting => forall t | t in targets :: FlagsOf(s, t) == FlagsOf(before, t)
    case Blocked => forall t | t in targets :: FlagsOf(s, t) == FlagsOf(before, t)
    case Unlocking(todo, removed) =>
      (forall t | t in todo :: t in targets) && Owed(before, targets, removed) &&
      forall t | t in targets :: Intact(before, s, removed, t)
    case Requesting(removed) =>
      Owed(before, targets, removed) && forall t | t in targets :: Intact(before, s, removed, t)
    case Restoring(removed) =>
      Owed(before, targets, removed) && forall t | t in targets :: Recovering(before, s, removed, t)
    case Failed => forall t | t in targets :: Recovering(before, s, [], t)
    case Deleted => true
  }

  ghost predicate AllLocksSafe(job: Job, before: State, s: State)
  {
    && job.targets.Keys == s.phases.Keys
    && forall n {:trigger s.phases[n]} | n in s.phases :: LocksSafe(before, s, job.targets[n], s.phases[n])
  }

  /** Locks that are on no manifest of the job are never touched. */
  ghost predicate OutsideUntouched(job: Job, before: State, s: State)
  {
    forall t | (forall n | n in job.targets :: t !in job.targets[n]) :: FlagsOf(s, t) == FlagsOf(before, t)
  }

  /** Only the locks of the acting manifest change, and restoring failures only accumulate. */
  lemma OtherLocks(job: Job, before: State, s: State, e: Event)
    requires Enabled(job, s, e) && AllLocksSafe(job, before, s)
    ensures s.unrestored <= Next(job, s, e).unrestored
    ensures forall t | FlagsOf(Next(job, s, e), t) != FlagsOf(s, t) ::
              Actor(e).Some? && Actor(e).value in job.targets && t in job.targets[Actor(e).value]
  {
    hide FlagsOf, LocksSafe;
    if e.Unlock? {
      var n := e.ref;
      assert LocksSafe(before, s, job.targets[n], s.phases[n]);
      TakeOffFlags(before, s, n, e.i, e.read, e.outcome, job.targets[n]);
    } else if e.Restore? {
      var n := e.ref;
      assert LocksSafe(before, s, job.targets[n], s.phases[n]);
      PutBackFlags(before, s, n, e.i, e.outcome, job.targets[n]);
    } else {
      SameFlags(s, Next(job, s, e));
    }
  }

  lemma TakeOffFlags(before: State, s: State, n: Ref, i: nat, read: bool, outcome: Outcome, targets: seq<Target>)
    requires n in s.phases && s.phases[n].Unlocking? && i < |s.phases[n].todo| &&
             LocksSafe(before, s, targets, s.phases[n])
    ensures s.unrestored == TakeOff(s, n, i, read, outcome).unrestored
    ensures forall t | FlagsOf(TakeOff(s, n, i, read, outcome), t) != FlagsOf(s, t) :: t in targets
  {
    assert s.phases[n].todo[i] in s.phases[n].todo;
  }

  lemma PutBackFlags(before: State, s: State, n: Ref, i: nat, outcome: Outcome, targets: seq<Target>)
    requires n in s.phases && s.phases[n].Restoring? && i < |s.phases[n].removed| &&
             LocksSafe(before, s, targets, s.phases[n])
    ensures s.unrestored <= PutBack(s, n, i, outcome).unrestored
    ensures forall t | FlagsOf(PutBack(s, n, i, outcome), t) != FlagsOf(s, t) :: t in targets
  {
    assert s.phases[n].removed[i] in s.phases[n].removed;
  }

  lemma LocksSafeFrame(before: State, s: State, s': State, targets: seq<Target>, phase: Phase)
    requires LocksSafe(before, s, targets, phase) && s.unrestored <= s'.unrestored
    requires forall t | t in targets :: FlagsOf(s', t) == FlagsOf(s, t)
    ensures LocksSafe(before, s', targets, phase)
  {
    hide FlagsOf, SameLocks, NoNewLocks;
  }

  lemma TakeOffSafe(before: State, s: State, n: Ref, i: nat, read: bool, outcome: Outcome, targets: seq<Target>)
    requires n in s.phases && s.phases[n].Unlocking? && i < |s.phases[n].todo|
    requires LocksSafe(before, s, targets, s.phases[n])
    ensures LocksSafe(before, TakeOff(s, n, i, read, outcome), targets, TakeOff(s, n, i, read, outcome).phases[n])
  {
    var s' := TakeOff(s, n, i, read, outcome);
    var phase := s.phases[n];
    var x := phase.todo[i];
    assert Intact(before, s, phase.removed, x);
    forall t | t in targets ensures Intact(before, s', s'.phases[n].removed, t) {
      assert Intact(before, s, phase.removed, t);
    }
  }

  lemma PutBackSafe(before: State, s: State, n: Ref, i: nat, outcome: Outcome, targets: seq<Target>)
    requires n in s.phases && s.phases[n].Restoring? && i < |s.phases[n].removed|
    requires LocksSafe(before, s, targets, s.phases[n])
    ensures LocksSafe(before, PutBack(s, n, i, outcome), targets, PutBack(s, n, i, outcome).phases[n])
  {
    var s' := PutBack(s, n, i, outcome);
    var removed := s.phases[n].removed;
    var r := removed[i];
    assert r in removed;
    RestoreExact(FlagsOf(before, r.target), FlagsOf(s, r.target));
    forall t | t in targets ensures Recovering(before, s', Without(removed, i), t) {
      assert Recovering(before, s, removed, t);
      if t != r.target && Remembered(before, removed, t) {
        var k :| 0 <= k < |removed| && removed[k] == Removed(t, RelockOf(FlagsOf(before, t)));
        assert Without(removed, i)[if k < i then k else k - 1] == removed[k];
      }
    }
  }

  /** All other moves of a worker leave the locks alone. */
  lemma MoveSafe(job: Job, before: State, s: State, e: Event, n: Ref)
    requires Enabled(job, s, e) && Actor(e) == Some(n) && n in job.targets && !e.Unlock? && !e.Restore?
    requires LocksSafe(before, s, job.targets[n], s.phases[n])
    ensures n in Next(job, s, e).phases
    ensures LocksSafe(before, s, job.targets[n], Next(job, s, e).phases[n])
    ensures Next(job, s, e).flags == s.flags && Next(job, s, e).unrestored == s.unrestored
  {
    hide FlagsOf, SameLocks, NoNewLocks, HasSparedParent;
    SameNow(before, s, job.targets[n]);
  }

  lemma SameNow(before: State, s: State, targets: seq<Target>)
    ensures forall t | t in targets && FlagsOf(s, t) == FlagsOf(before, t) :: Recovering(before, s, [], t)
    ensures forall t, removed | t in targets && Intact(before, s, removed, t) :: Recovering(before, s, removed, t)
  {
  }

  lemma ActorLocks(job: Job, before: State, s: State, e: Event, n: Ref)
    requires Enabled(job, s, e) && Actor(e) == Some(n) && n in job.targets
    requires LocksSafe(before, s, job.targets[n], s.phases[n])
    ensures n in Next(job, s, e).phases
    ensures LocksSafe(before, Next(job, s, e), job.targets[n], Next(job, s, e).phases[n])
  {
    hide LocksSafe, FlagsOf;
    if e.Unlock? {
      TakeOffSafe(before, s, n, e.i, e.read, e.outcome, job.targets[n]);
    } else if e.Restore? {
      PutBackSafe(before, s, n, e.i, e.outcome, job.targets[n]);
    } else {
      MoveSafe(job, before, s, e, n);
      var s' := Next(job, s, e);
      SameFlags(s, s');
      hide Enabled, Next;
      LocksSafeFrame(before, s, s', job.targets[n], s'.phases[n]);
    }
  }

  lemma SameFlags(s: State, s': State)
    requires s'.flags == s.flags
    ensures forall t :: FlagsOf(s', t) == FlagsOf(s, t)
  {
  }

  lemma OneActor(job: Job, n: Ref, m: Ref, t: Target)
    requires ValidJob(job) && n in job.level && m in job.level && n != m
    ensures t in job.targets[n] ==> t !in job.targets[m]
  {
    assert t in job.targets[n] ==> t in Elements(job.targets[n]);
  }

  lemma StepLocksAt(job: Job, before: State, s: State, e: Event, n: Ref)
    requires ValidJob(job) && Keyed(job, s) && Enabled(job, s, e) && AllLocksSafe(job, before, s) && n in s.phases
    ensures n in Next(job, s, e).phases
    ensures LocksSafe(before, Next(job, s, e), job.targets[n], Next(job, s, e).phases[n])
  {
    var s' := Next(job, s, e);
    OthersStay(job, s, e);
    OtherLocks(job, before, s, e);
    if Actor(e) == Some(n) {
      ActorLocks(job, before, s, e, n);
    } else {
      forall t | t in job.targets[n] ensures FlagsOf(s', t) == FlagsOf(s, t) {
        if Actor(e).Some? && Actor(e).value in job.targets {
          OneActor(job, n, Actor(e).value, t);
        }
      }
      hide LocksSafe, FlagsOf, Enabled, Next, ValidJob;
      LocksSafeFrame(before, s, s', job.targets[n], s.phases[n]);
    }
  }

  lemma StepLocks(job: Job, before: State, s: State, e: Event)
    requires ValidJob(job) && Keyed(job, s) && Enabled(job, s, e)
    requires AllLocksSafe(job, before, s) && OutsideUntouched(job, before, s)
    ensures AllLocksSafe(job, before, Next(job, s, e)) && OutsideUntouched(job, before, Next(job, s, e))
  {
    var s' := Next(job, s, e);
    OthersStay(job, s, e);
    OtherLocks(job, before, s, e);
    hide LocksSafe, FlagsOf, Enabled, Next, ValidJob;
    forall n | n in s.phases ensures LocksSafe(before, s', job.targets[n], s'.phases[n]) {
      StepLocksAt(job, before, s, e, n);
    }
  }

  // ----- whole runs

  ghost predicate Sound(job: Job, before: State, s: State)
  {
    && Orderly(job, s) && Logged(s) && ParentsFirst(job, s.deleted)
    && Accounted(before, s) && AllLocksSafe(job, before, s) && OutsideUntouched(job, before, s)
  }

  lemma InitialOrderly(job: Job, s: State)
    requires ValidJob(job) && Initial(job, s)
    ensures Orderly(job, s)
  {
    hide OwnLocks, ParentsDeleted, HasSparedParent;
    forall n | n in job.level ensures InOrder(job, s, n) {
    }
    hide InOrder;
  }

  lemma InitialLocks(job: Job, s: State)
    requires ValidJob(job) && Initial(job, s)
    ensures AllLocksSafe(job, s, s) && OutsideUntouched(job, s, s)
  {
    forall n | n in s.phases ensures LocksSafe(s, s, job.targets[n], s.phases[n]) {
    }
    hide LocksSafe;
  }

  lemma InitialSound(job: Job, s: State)
    requires ValidJob(job) && Initial(job, s)
    ensures Sound(job, s, s)
  {
    InitialOrderly(job, s);
    InitialLocks(job, s);
    hide Orderly, AllLocksSafe, OutsideUntouched, ValidJob;
  }

  lemma StepSound(job: Job, before: State, s: State, e: Event)
    requires ValidJob(job) && Sound(job, before, s) && Enabled(job, s, e)
    ensures Sound(job, before, Next(job, s, e))
  {
    hide Enabled, Next, ValidJob, Logged, ParentsFirst, Accounted, AllLocksSafe, OutsideUntouched, InOrder;
    StepOrderly(job, s, e);
    StepLogged(job, s, e);
    StepAccounted(job, before, s, e);
    StepLocks(job, before, s, e);
  }

  /** Every state of every run is sound: any order within a batch, any outcome of each request,
      an interruption at any point. */
  lemma {:induction false} RunSound(job: Job, before: State, s: State, events: seq<Event>)
    requires ValidJob(job) && Sound(job, before, s) && Possible(job, s, events)
    ensures Sound(job, before, After(job, s, events))
    decreases |events|
  {
    hide ValidJob, Sound, Enabled, Next;
    if events != [] {
      StepSound(job, before, s, events[0]);
      RunSound(job, before, Next(job, s, events[0]), events[1..]);
    }
  }

  /** While a manifest is there, everything to be deleted after it is there. */
  lemma ParentsKeepChildren(job: Job, before: State, events: seq<Event>, n: Ref, p: Ref)
    requires ValidJob(job) && Initial(job, before) && Possible(job, before, events)
    requires n in job.level && p in job.parents[n]
    ensures p in After(job, before, events).present ==> n in After(job, before, events).present
  {
    InitialSound(job, before);
    RunSound(job, before, before, events);
    var s := After(job, before, events);
    assert InOrder(job, s, n);
    hide After, Possible, ValidJob, AllLocksSafe, OutsideUntouched;
    assert n in before.present;
  }

  /** Only manifests of the job are ever deleted, each at most once and after all its parents. */
  lemma DeletedInOrder(job: Job, before: State, events: seq<Event>)
    requires ValidJob(job) && Initial(job, before) && Possible(job, before, events)
    ensures var s := After(job, before, events);
            && ParentsFirst(job, s.deleted) && Elements(s.deleted) <= job.level.Keys * job.accepts
            && s.present <= before.present && before.present - s.present <= job.level.Keys
            && Elements(s.deleted) !! s.present
  {
    InitialSound(job, before);
    RunSound(job, before, before, events);
    var s := After(job, before, events);
    hide After, Possible, ValidJob, AllLocksSafe, OutsideUntouched;
    forall n | n in s.deleted ensures n in job.accepts && n !in s.present && n in job.level {
      assert InOrder(job, s, n);
    }
  }

  /** A manifest not attempted so far is left alone by every step that does not start it. */
  lemma StepUnstarted(job: Job, before: State, s: State, e: Event, n: Ref, t: Target)
    requires ValidJob(job) && Sound(job, before, s) && Enabled(job, s, e) && e != Start(n)
    requires n in job.level && t in job.targets[n] && n in s.phases && !s.phases[n].Active()
    ensures n in Next(job, s, e).phases && !Next(job, s, e).phases[n].Active()
    ensures FlagsOf(Next(job, s, e), t) == FlagsOf(s, t)
    ensures t in Next(job, s, e).unrestored <==> t in s.unrestored
  {
    hide *;
    OthersStay(job, s, e);
    SoundLocks(job, before, s);
    if Actor(e) == Some(n) {
      IdleMoves(job, s, e, n);
      SameFlags(s, Next(job, s, e));
    } else {
      OtherLocks(job, before, s, e);
      OthersUnrestored(job, before, s, e);
      if Actor(e).Some? && Actor(e).value in job.targets {
        SameKeysOf(job);
        OneActor(job, n, Actor(e).value, t);
      }
    }
  }

  lemma SoundLocks(job: Job, before: State, s: State)
    requires Sound(job, before, s)
    ensures AllLocksSafe(job, before, s)
  {
  }

  lemma SameKeysOf(job: Job)
    requires ValidJob(job)
    ensures job.targets.Keys == job.level.Keys == job.parents.Keys
  {
  }

  /** A worker that does not start leaves its locks alone. */
  lemma IdleMoves(job: Job, s: State, e: Event, n: Ref)
    requires Enabled(job, s, e) && Actor(e) == Some(n) && e != Start(n) && n in s.phases && !s.phases[n].Active()
    ensures n in Next(job, s, e).phases && !Next(job, s, e).phases[n].Active()
    ensures Next(job, s, e).flags == s.flags && Next(job, s, e).unrestored == s.unrestored
  {
  }

  lemma OthersUnrestored(job: Job, before: State, s: State, e: Event)
    requires Enabled(job, s, e) && AllLocksSafe(job, before, s)
    ensures forall t | t in Next(job, s, e).unrestored && t !in s.unrestored ::
              Actor(e).Some? && Actor(e).value in job.targets && t in job.targets[Actor(e).value]
  {
    hide FlagsOf, LocksSafe;
    if e.Restore? {
      var n := e.ref;
      assert LocksSafe(before, s, job.targets[n], s.phases[n]);
      PutBackUnrestored(before, s, n, e.i, e.outcome, job.targets[n]);
    }
  }

  lemma PutBackUnrestored(before: State, s: State, n: Ref, i: nat, outcome: Outcome, targets: seq<Target>)
    requires n in s.phases && s.phases[n].Restoring? && i < |s.phases[n].removed| &&
             LocksSafe(before, s, targets, s.phases[n])
    ensures forall t | t in PutBack(s, n, i, outcome).unrestored && t !in s.unrestored :: t in targets
  {
    assert s.phases[n].removed[i] in s.phases[n].removed;
  }

  /** The locks of a manifest whose deletion is never started are not touched: not when a parent
      holds it back, not when an interruption skips it or comes before its batch. */
  lemma {:induction false} NeverStarted(job: Job, before: State, s: State, events: seq<Event>, n: Ref, t: Target)
    requires ValidJob(job) && Sound(job, before, s) && Possible(job, s, events)
    requires n in job.level && t in job.targets[n] && n in s.phases && !s.phases[n].Active() && Start(n) !in events
    ensures FlagsOf(After(job, s, events), t) == FlagsOf(s, t)
    ensures t in After(job, s, events).unrestored <==> t in s.unrestored
    decreases |events|
  {
    hide ValidJob, Sound, Enabled, Next, FlagsOf;
    if events != [] {
      assert events[0] in events;
      StepSound(job, before, s, events[0]);
      StepUnstarted(job, before, s, events[0], n, t);
      NeverStarted(job, before, Next(job, s, events[0]), events[1..], n, t);
    }
  }

  /** Locks survive failed deletions: those of a manifest whose deletion was never started are
      untouched; the others have the same switches off as before, unless restoring them failed; and
      no lock is added while the manifest is not deleted. */
  lemma LocksSurvive(job: Job, before: State, events: seq<Event>, n: Ref, t: Target)
    requires ValidJob(job) && Initial(job, before) && Possible(job, before, events)
    requires n in job.level && t in job.targets[n]
    ensures var s := After(job, before, events);
            && n in s.phases
            && (Start(n) !in events ==> FlagsOf(s, t) == FlagsOf(before, t) && t !in s.unrestored)
            && (s.phases[n].Waiting? || s.phases[n].Blocked? ==> FlagsOf(s, t) == FlagsOf(before, t))
            && (s.phases[n].Failed? && t !in s.unrestored ==> SameLocks(FlagsOf(s, t), FlagsOf(before, t)))
            && (!s.phases[n].Deleted? ==> NoNewLocks(FlagsOf(before, t), FlagsOf(s, t)))
  {
    hide *;
    var s := After(job, before, events);
    SameKeysOf(job);
    InitialSound(job, before);
    InitialMeans(job, before, n);
    RunSound(job, before, before, events);
    LocksSafeAt(job, before, s, n);
    LocksSafeMeans(before, s, job.targets[n], s.phases[n], t);
    if Start(n) !in events {
      NeverStarted(job, before, before, events, n, t);
    }
  }

  lemma InitialMeans(job: Job, s: State, n: Ref)
    requires Initial(job, s) && n in job.level
    ensures n in s.phases && !s.phases[n].Active() && s.unrestored == {}
  {
  }

  lemma LocksSafeAt(job: Job, before: State, s: State, n: Ref)
    requires ValidJob(job) && Sound(job, before, s) && n in job.level
    ensures n in s.phases && LocksSafe(before, s, job.targets[n], s.phases[n])
  {
    hide Orderly, Logged, Accounted, LocksSafe, Layered, OwnLocks;
  }

  lemma LocksSafeMeans(before: State, s: State, targets: seq<Target>, phase: Phase, t: Target)
    requires LocksSafe(before, s, targets, phase) && t in targets
    ensures phase.Waiting? || phase.Blocked? ==> FlagsOf(s, t) == FlagsOf(before, t)
    ensures phase.Failed? && t !in s.unrestored ==> SameLocks(FlagsOf(s, t), FlagsOf(before, t))
    ensures !phase.Deleted? ==> NoNewLocks(FlagsOf(before, t), FlagsOf(s, t))
  {
    hide FlagsOf;
    assert phase.Unlocking? ==> Intact(before, s, phase.removed, t);
    assert phase.Requesting? ==> Intact(before, s, phase.removed, t);
    assert phase.Restoring? ==> Recovering(before, s, phase.removed, t);
    assert phase.Failed? ==> Recovering(before, s, [], t);
  }

  /** A manifest that was not deleted and that no worker is busy with is locked as before, but for
      the locks whose restoring failed; when a run is over, no worker is busy. */
  lemma LocksBack(job: Job, before: State, events: seq<Event>, n: Ref, t: Target)
    requires ValidJob(job) && Initial(job, before) && Possible(job, before, events)
    requires n in job.level && t in job.targets[n]
    ensures var s := After(job, before, events);
            && n in s.phases
            && (!s.phases[n].Active() && n !in s.deleted && t !in s.unrestored ==>
                  SameLocks(FlagsOf(s, t), FlagsOf(before, t)))
            && (Finished(job, s) ==> !s.phases[n].Active())
  {
    hide *;
    var s := After(job, before, events);
    LocksSurvive(job, before, events, n, t);
    InitialSound(job, before);
    RunSound(job, before, before, events);
    IdlePhases(job, before, s, n);
    SameFlagsLock(FlagsOf(s, t), FlagsOf(before, t));
  }

  lemma SameFlagsLock(flags: Flags, other: Flags)
    ensures flags == other ==> SameLocks(flags, other)
  {
  }

  lemma IdlePhases(job: Job, before: State, s: State, n: Ref)
    requires Sound(job, before, s) && n in job.level
    ensures n in s.phases && (n in s.deleted <==> s.phases[n].Deleted?)
    ensures s.phases[n].Active() || s.phases[n].Deleted? || s.phases[n].Failed? || s.phases[n].Blocked? ||
            s.phases[n].Waiting?
    ensures Finished(job, s) ==> !s.phases[n].Active()
  {
    assert InOrder(job, s, n);
    hide Accounted, AllLocksSafe, OutsideUntouched, ParentsDeleted, HasSparedParent;
  }

  lemma OtherLocksUntouched(job: Job, before: State, events: seq<Event>, t: Target)
    requires ValidJob(job) && Initial(job, before) && Possible(job, before, events)
    requires forall n | n in job.level :: t !in job.targets[n]
    ensures FlagsOf(After(job, before, events), t) == FlagsOf(before, t)
  {
    InitialSound(job, before);
    RunSound(job, before, before, events);
  }

  lemma StepUnrestored(job: Job, before: State, s: State, e: Event, t: Target)
    requires ValidJob(job) && Sound(job, before, s) && Enabled(job, s, e)
    requires forall n | n in job.level :: t !in job.targets[n]
    ensures t in Next(job, s, e).unrestored <==> t in s.unrestored
  {
    hide *;
    SoundLocks(job, before, s);
    SameKeysOf(job);
    OtherLocks(job, before, s, e);
    OthersUnrestored(job, before, s, e);
  }

  /** Nor does any of those count as failed to restore. */
  lemma {:induction false} OthersRestored(job: Job, before: State, s: State, events: seq<Event>, t: Target)
    requires ValidJob(job) && Sound(job, before, s) && Possible(job, s, events)
    requires forall n | n in job.level :: t !in job.targets[n]
    ensures t in After(job, s, events).unrestored <==> t in s.unrestored
    decreases |events|
  {
    hide ValidJob, Sound, Enabled, Next;
    if events != [] {
      StepSound(job, before, s, events[0]);
      StepUnrestored(job, before, s, events[0], t);
      OthersRestored(job, before, Next(job, s, events[0]), events[1..], t);
    }
  }

  lemma NothingUnrestored(job: Job, before: State, events: seq<Event>, t: Target)
    requires ValidJob(job) && Initial(job, before) && Possible(job, before, events)
    requires forall n | n in job.level :: t !in job.targets[n]
    ensures t !in After(job, before, events).unrestored
  {
    hide ValidJob, Sound, Possible, After;
    InitialSound(job, before);
    OthersRestored(job, before, before, events, t);
  }

  lemma StepRestored(job: Job, before: State, s: State, e: Event, n: Ref, t: Target)
    requires ValidJob(job) && Sound(job, before, s) && Enabled(job, s, e)
    requires n in job.level && t in job.targets[n]
    requires e.Restore? && e.ref == n ==> !e.outcome.Refused?
    ensures t in Next(job, s, e).unrestored <==> t in s.unrestored
  {
    hide *;
    SoundLocks(job, before, s);
    SameKeysOf(job);
    OtherLocks(job, before, s, e);
    OthersUnrestored(job, before, s, e);
    if Actor(e) == Some(n) {
      NothingRefused(job, s, e, n);
    } else if Actor(e).Some? && Actor(e).value in job.targets {
      OneActor(job, n, Actor(e).value, t);
    }
  }

  lemma NothingRefused(job: Job, s: State, e: Event, n: Ref)
    requires Enabled(job, s, e) && Actor(e) == Some(n) && (e.Restore? && e.ref == n ==> !e.outcome.Refused?)
    ensures Next(job, s, e).unrestored == s.unrestored
  {
  }

  /** A lock counts as failed to restore only if the registry refused to restore one of its manifest. */
  lemma {:induction false} UnrestoredRefused(job: Job, before: State, s: State, events: seq<Event>, n: Ref, t: Target)
    requires ValidJob(job) && Sound(job, before, s) && Possible(job, s, events)
    requires n in job.level && t in job.targets[n]
    requires forall i | 0 <= i < |events| && events[i].Restore? && events[i].ref == n :: !events[i].outcome.Refused?
    ensures t in After(job, s, events).unrestored <==> t in s.unrestored
    decreases |events|
  {
    hide ValidJob, Sound, Enabled, Next;
    if events != [] {
      StepSound(job, before, s, events[0]);
      StepRestored(job, before, s, events[0], n, t);
      UnrestoredRefused(job, before, Next(job, s, events[0]), events[1..], n, t);
    }
  }

  // ----- what a finished run has done

  ghost function ParentEdges(job: Job): map<Ref, set<Ref>>
  {
    map n | n in job.parents :: Elements(job.parents[n])
  }

  /** The manifest and everything to be deleted before it, directly or not. */
  ghost function Ancestry(job: Job, n: Ref): set<Ref>
  {
    Reach(ParentEdges(job), {n})
  }

  lemma ParentAncestry(job: Job, n: Ref, p: Ref)
    requires n in job.parents && p in job.parents[n]
    ensures n in Ancestry(job, n) && Ancestry(job, p) <= Ancestry(job, n)
  {
    ReachLeast(ParentEdges(job), {n});
    assert p in ParentEdges(job)[n];
    ReachMonotone(ParentEdges(job), {p}, {n});
  }

  lemma OwnAncestry(job: Job, n: Ref)
    ensures n in Ancestry(job, n)
  {
    ReachLeast(ParentEdges(job), {n});
  }

  /** What is deleted has all its ancestry deleted, at every moment, interrupted or not. */
  lemma DeletedAncestry(job: Job, s: State, n: Ref)
    requires ValidJob(job) && Orderly(job, s) && Logged(s) && n in s.deleted
    ensures Ancestry(job, n) <= Elements(s.deleted)
  {
    hide ValidJob, Reach, HasSparedParent;
    var edges, gone := ParentEdges(job), Elements(s.deleted);
    forall m | m in gone && m in edges ensures edges[m] <= gone {
      assert InOrder(job, s, m);
      assert ParentsDeleted(job, s, m);
    }
    hide Orderly, Logged;
    assert Bounds(edges, {n}, gone);
    ReachLeast(edges, {n});
  }

  lemma {:induction false} AcceptedDeleted(job: Job, s: State, n: Ref)
    requires ValidJob(job) && Orderly(job, s) && Finished(job, s) && !s.cancelled
    requires n in job.level && Ancestry(job, n) <= job.accepts
    ensures s.phases[n].Deleted?
    decreases job.level[n]
  {
    OwnAncestry(job, n);
    forall p | p in job.parents[n] ensures p in s.phases && s.phases[p].Deleted? {
      ParentAncestry(job, n, p);
      AcceptedDeleted(job, s, p);
    }
    NotBlocked(job, s, n);
    assert InOrder(job, s, n);
    hide Ancestry, ParentsDeleted, HasSparedParent;
  }

  /** An uninterrupted run deletes exactly the manifests whose deletion, and that of all their
      ancestry, the registry accepts; an interrupted one deletes some of these. */
  lemma FinishedExactly(job: Job, before: State, events: seq<Event>, n: Ref)
    requires ValidJob(job) && Initial(job, before) && Possible(job, before, events) && n in job.level
    ensures var s := After(job, before, events);
            && (n in s.deleted ==> Ancestry(job, n) <= Elements(s.deleted) && Ancestry(job, n) <= job.accepts)
            && (Finished(job, s) && !s.cancelled ==> (n in s.deleted <==> Ancestry(job, n) <= job.accepts))
  {
    InitialSound(job, before);
    RunSound(job, before, before, events);
    DeletedInOrder(job, before, events);
    var s := After(job, before, events);
    hide After, Possible, Ancestry, ParentsFirst;
    if n in s.deleted {
      DeletedAncestry(job, s, n);
    } else if Finished(job, s) && !s.cancelled && Ancestry(job, n) <= job.accepts {
      AcceptedDeleted(job, s, n);
    }
  }

  lemma NotBlocked(job: Job, s: State, n: Ref)
    requires ParentsDeleted(job, s, n)
    ensures !HasSparedParent(job, s, n)
  {
  }

  lemma {:induction false} NothingFailed(job: Job, s: State, n: Ref)
    requires ValidJob(job) && Orderly(job, s) && Finished(job, s) && Succeeded(s) && n in job.level
    ensures s.phases[n].Deleted?
    decreases job.level[n]
  {
    forall p | p in job.parents[n] ensures p in s.phases && s.phases[p].Deleted? {
      NothingFailed(job, s, p);
    }
    NotBlocked(job, s, n);
    assert InOrder(job, s, n);
    hide ParentsDeleted, HasSparedParent;
  }

  /** What counts as deleted is exactly what the registry confirmed. */
  lemma {:induction false} DeletedConfirmed(job: Job, s: State, events: seq<Event>, n: Ref)
    requires Possible(job, s, events)
    ensures n in After(job, s, events).deleted <==> n in s.deleted || Respond(n, Confirmed) in events
    decreases |events|
  {
    hide Enabled, Next;
    if events != [] {
      StepConfirmed(job, s, events[0], n);
      DeletedConfirmed(job, Next(job, s, events[0]), events[1..], n);
      assert events == [events[0]] + events[1..];
    }
  }

  lemma StepConfirmed(job: Job, s: State, e: Event, n: Ref)
    requires Enabled(job, s, e)
    ensures n in Next(job, s, e).deleted <==> n in s.deleted || e == Respond(n, Confirmed)
  {
  }

  /** A run reports success exactly when it was not interrupted and everything is deleted. */
  lemma SuccessExactly(job: Job, before: State, events: seq<Event>)
    requires ValidJob(job) && Initial(job, before) && Possible(job, before, events)
    requires Finished(job, After(job, before, events))
    ensures var s := After(job, before, events);
            Succeeded(s) <==> !s.cancelled && Elements(s.deleted) == job.level.Keys
  {
    hide *;
    var s := After(job, before, events);
    InitialSound(job, before);
    RunSound(job, before, before, events);
    SoundParts(job, before, s);
    if Succeeded(s) {
      AllSucceeded(job, s);
    } else {
      SomeFailed(job, s);
    }
  }

  lemma SoundParts(job: Job, before: State, s: State)
    requires Sound(job, before, s)
    ensures Keyed(job, s) && Orderly(job, s) && Logged(s)
  {
  }

  lemma AllSucceeded(job: Job, s: State)
    requires ValidJob(job) && Orderly(job, s) && Logged(s) && Finished(job, s) && Succeeded(s)
    ensures !s.cancelled && Elements(s.deleted) == job.level.Keys
  {
    hide ValidJob, InOrder, Finished;
    forall n | n in job.level ensures n in s.deleted {
      NothingFailed(job, s, n);
    }
    assert Elements(s.deleted) == job.level.Keys;
  }

  lemma SomeFailed(job: Job, s: State)
    requires Orderly(job, s) && Logged(s) && !Succeeded(s)
    ensures s.cancelled || Elements(s.deleted) != job.level.Keys
  {
    if !s.cancelled {
      var n :| n in s.failures;
      assert InOrder(job, s, n);
      assert n !in s.deleted;
    }
  }

  // ----- what the runs leave open

  /** An interruption can come at any time; an unlock and a restore can end in any way; a request that
      the registry accepts is confirmed, and one that it does not accept, or that is interrupted, can
      fail with or without effect. */
  lemma EveryOutcome(job: Job, s: State, n: Ref, i: nat, read: bool, outcome: Outcome)
    requires InPlay(job, s, n)
    ensures !s.cancelled ==> Enabled(job, s, Cancel) && Next(job, s, Cancel).cancelled
    ensures s.phases[n].Unlocking? && i < |s.phases[n].todo| && !s.cancelled ==>
              Enabled(job, s, Unlock(n, i, read, outcome))
    ensures s.phases[n].Restoring? && i < |s.phases[n].removed| ==> Enabled(job, s, Restore(n, i, outcome))
    ensures s.phases[n].Requesting? ==>
              && (n in job.accepts ==> Enabled(job, s, Respond(n, Confirmed)))
              && (n !in job.accepts || s.cancelled ==>
                    && Enabled(job, s, Respond(n, Lost)) && Enabled(job, s, Respond(n, Refused))
                    && Next(job, s, Respond(n, Lost)).present == s.present - {n}
                    && Next(job, s, Respond(n, Refused)).present == s.present)
  {
  }

  // ----- every run ends, and only when it is finished

  function PhaseWork(targets: nat, phase: Phase): nat
  {
    match phase
    case Waiting => 2 * targets + 4
    case Unlocking(todo, removed) => 2 * |todo| + |removed| + 3
    case Requesting(removed) => |removed| + 2
    case Restoring(removed) => |removed| + 1
    case Deleted => 0
    case Failed => 0
    case Blocked => 0
  }

  function Effort(job: Job, phases: map<Ref, Phase>): Ref -> nat
  {
    n => if n in phases && n in job.targets then PhaseWork(|job.targets[n]|, phases[n]) else 0
  }

  /** How many steps a run can still take. */
  ghost function Work(job: Job, s: State): int
  {
    Sum(job.level.Keys, Effort(job, s.phases)) + (job.rounds - s.started) + if s.cancelled then 0 else 1
  }

  lemma ActorWorks(job: Job, s: State, e: Event, n: Ref)
    requires Enabled(job, s, e) && Actor(e) == Some(n) && job.level.Keys == job.targets.Keys
    ensures n in job.level && n in s.phases && n in Next(job, s, e).phases
    ensures PhaseWork(|job.targets[n]|, Next(job, s, e).phases[n]) < PhaseWork(|job.targets[n]|, s.phases[n])
  {
    hide HasSparedParent, FlagsOf;
  }

  lemma SumFalls(s: set<Ref>, f: Ref -> nat, g: Ref -> nat, n: Ref)
    requires n in s && g(n) < f(n) && forall m | m in s && m != n :: f(m) == g(m)
    ensures Sum(s, g) < Sum(s, f)
  {
    SumRemove(s, f, n);
    SumRemove(s, g, n);
    SumSame(s - {n}, f, g);
  }

  lemma ClockWorks(job: Job, s: State, e: Event)
    requires Enabled(job, s, e) && Actor(e).None?
    ensures var s' := Next(job, s, e);
            && s'.phases == s.phases
            && job.rounds - s'.started + (if s'.cancelled then 0 else 1) <
               job.rounds - s.started + if s.cancelled then 0 else 1
  {
  }

  lemma EffortFalls(job: Job, before: map<Ref, Phase>, after: map<Ref, Phase>, n: Ref)
    requires before.Keys == after.Keys == job.targets.Keys == job.level.Keys && n in before
    requires forall m | m in before && m != n :: after[m] == before[m]
    requires PhaseWork(|job.targets[n]|, after[n]) < PhaseWork(|job.targets[n]|, before[n])
    ensures Sum(job.level.Keys, Effort(job, after)) < Sum(job.level.Keys, Effort(job, before))
  {
    hide PhaseWork, Sum;
    SumFalls(job.level.Keys, Effort(job, before), Effort(job, after), n);
  }

  lemma StepWorks(job: Job, s: State, e: Event)
    requires ValidJob(job) && Keyed(job, s) && Enabled(job, s, e)
    ensures Work(job, Next(job, s, e)) < Work(job, s)
  {
    hide Enabled, Next, PhaseWork, Effort, Sum;
    var s' := Next(job, s, e);
    OthersStay(job, s, e);
    assert job.targets.Keys == job.level.Keys;
    hide ValidJob;
    if Actor(e).Some? {
      ActorWorks(job, s, e, Actor(e).value);
      EffortFalls(job, s.phases, s'.phases, Actor(e).value);
    } else {
      ClockWorks(job, s, e);
    }
  }

  /** No run goes on forever. */
  lemma {:induction false} RunsEnd(job: Job, before: State, s: State, events: seq<Event>)
    requires ValidJob(job) && Sound(job, before, s) && Possible(job, s, events)
    ensures |events| <= Work(job, s)
    decreases |events|
  {
    hide ValidJob, Enabled, Next, Work;
    if events != [] {
      StepWorks(job, s, events[0]);
      StepSound(job, before, s, events[0]);
      RunsEnd(job, before, Next(job, s, events[0]), events[1..]);
    } else {
      WorkLeft(job, s);
    }
  }

  lemma WorkLeft(job: Job, s: State)
    requires Orderly(job, s)
    ensures Work(job, s) >= 0
  {
  }

  /** A run that is not finished can go on, whatever the registry answers. */
  lemma RunsGoOn(job: Job, before: State, s: State) returns (e: Event)
    requires ValidJob(job) && Sound(job, before, s) && !Finished(job, s)
    ensures !e.Cancel? && Enabled(job, s, e)
  {
    if n :| n in job.level && job.level[n] < s.started && !s.phases[n].Settled() {
      match s.phases[n]
      case Waiting =>
        e := if HasSparedParent(job, s, n) then Block(n) else if s.cancelled then Skip(n) else Start(n);
      case Unlocking(todo, removed) =>
        e := if s.cancelled then Abort(n) else if todo == [] then Request(n) else Unlock(n, 0, false, Confirmed);
      case Requesting(removed) => e := Respond(n, if n in job.accepts then Confirmed else Refused);
      case Restoring(removed) => e := if removed == [] then Finish(n, true) else Restore(n, 0, Confirmed);
    } else {
      e := NextBatch;
    }
  }

  /** Every job can start, whatever the registry holds besides and however it is locked. */
  function Fresh(job: Job, present: set<Ref>, flags: map<Target, Flags>): State
  {
    State(present, flags, map n | n in job.level :: Waiting, 0, [], {}, false, {})
  }

  lemma FreshInitial(job: Job, present: set<Ref>, flags: map<Target, Flags>)
    requires job.level.Keys <= present
    ensures Initial(job, Fresh(job, present, flags))
  {
  }

  /** Every run can be finished from any state it reaches. */
  lemma {:induction false} RunsFinish(job: Job, before: State, s: State) returns (events: seq<Event>)
    requires ValidJob(job) && Sound(job, before, s)
    ensures Possible(job, s, events) && Finished(job, After(job, s, events))
    decreases Work(job, s)
  {
    hide ValidJob, Sound, Enabled, Next, Finished, Work;
    if Finished(job, s) {
      events := [];
    } else {
      var e := RunsGoOn(job, before, s);
      SoundWork(job, before, s);
      StepWorks(job, s, e);
      StepSound(job, before, s, e);
      var rest := RunsFinish(job, before, Next(job, s, e));
      events := [e] + rest;
      assert events[1..] == rest;
    }
  }

  lemma SoundWork(job: Job, before: State, s: State)
    requires Sound(job, before, s)
    ensures Keyed(job, s) && Work(job, s) >= 0
  {
    WorkLeft(job, s);
  }
}
