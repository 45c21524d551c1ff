/** Locks come off before a deletion is requested (deleteManifest in internal/registry/delete.go, unlock
    in internal/registry/lock.go). */
module UnlockRuns {
  import opened Manifests
  import opened Locks
  import opened Deletion
  import opened DeletionRuns

  // ----- every lock is tried

  /** One of the events was to take this lock off the manifest. */
  ghost predicate Tried(job: Job, s: State, events: seq<Event>, n: Ref, t: Target)
    requires Possible(job, s, events)
    decreases |events|
  {
    events != [] && (TriedNow(s, events[0], n, t) || Tried(job, Next(job, s, events[0]), events[1..], n, t))
  }

  ghost predicate TriedNow(s: State, e: Event, n: Ref, t: Target)
  {
    e.Unlock? && e.ref == n && n in s.phases && s.phases[n].Unlocking? && e.i < |s.phases[n].todo| &&
    s.phases[n].todo[e.i] == t
  }

  /** The locks still to try are those that were to try before, but for one that was tried now. */
  lemma StepTried(job: Job, s: State, e: Event, n: Ref, t: Target)
    requires Enabled(job, s, e) && n in s.phases && n in job.targets
    requires s.phases[n].Unlocking? && t in s.phases[n].todo
    ensures n in Next(job, s, e).phases
    ensures Next(job, s, e).phases[n].Unlocking? && !TriedNow(s, e, n, t) ==> t in Next(job, s, e).phases[n].todo
    ensures !Next(job, s, e).phases[n].Unlocking? ==> Next(job, s, e).phases[n].Restoring?
  {
    if e.Unlock? && e.ref == n {
      var todo := s.phases[n].todo;
      var k :| 0 <= k < |todo| && todo[k] == t;
      if k != e.i {
        assert Without(todo, e.i)[if k < e.i then k else k - 1] == t;
      }
    }
  }

  lemma StepWaiting(job: Job, s: State, e: Event, n: Ref)
    requires Enabled(job, s, e) && n in s.phases && n in job.targets && !s.phases[n].Unlocking?
    ensures n in Next(job, s, e).phases
    ensures Next(job, s, e).phases[n].Unlocking? ==>
              s.phases[n].Waiting? && Next(job, s, e).phases[n].todo == job.targets[n]
    ensures Next(job, s, e).phases[n].Waiting? ==> s.phases[n].Waiting?
  {
  }

  /** Whenever the deletion of a manifest can be requested, each of its locks was tried. */
  lemma {:induction false} AllTried(job: Job, s: State, events: seq<Event>, n: Ref, t: Target)
    requires Possible(job, s, events) && Enabled(job, After(job, s, events), Request(n))
    requires n in s.phases && n in job.targets && t in job.targets[n]
    requires s.phases[n].Waiting? || (s.phases[n].Unlocking? && t in s.phases[n].todo)
    ensures Tried(job, s, events, n, t)
    decreases |events|
  {
    if events == [] {
    } else {
      var e, s' := events[0], Next(job, s, events[0]);
      if s.phases[n].Waiting? {
        StepWaiting(job, s, e, n);
      } else {
        StepTried(job, s, e, n, t);
      }
      hide Enabled, Next, TriedNow;
      if !TriedNow(s, e, n, t) {
        if s'.phases[n].Waiting? || s'.phases[n].Unlocking? {
          AllTried(job, s', events[1..], n, t);
        } else {
          NeverUnlocking(job, s', events[1..], n);
        }
      }
    }
  }

  /** A manifest that is past unlocking is never unlocked again. */
  lemma {:induction false} NeverUnlocking(job: Job, s: State, events: seq<Event>, n: Ref)
    requires Possible(job, s, events) && n in s.phases && n in job.targets
    requires !s.phases[n].Waiting? && !s.phases[n].Unlocking?
    ensures n in After(job, s, events).phases && !After(job, s, events).phases[n].Unlocking?
    ensures !Enabled(job, After(job, s, events), Request(n))
    decreases |events|
  {
    if events != [] {
      StepWaiting(job, s, events[0], n);
      hide Enabled, Next;
      NeverUnlocking(job, Next(job, s, events[0]), events[1..], n);
    }
  }

  // ----- and is off

  /** One of the events found the lock off, or took it off. */
  ghost predicate Freed(job: Job, s: State, events: seq<Event>, n: Ref, t: Target)
    requires Possible(job, s, events)
    decreases |events|
  {
    events != [] && (FreedNow(s, events[0], n, t) || Freed(job, Next(job, s, events[0]), events[1..], n, t))
  }

  ghost predicate FreedNow(s: State, e: Event, n: Ref, t: Target)
  {
    TriedNow(s, e, n, t) && e.read && (!e.outcome.Refused? || Free(FlagsOf(s, t)))
  }

  lemma StepFreed(job: Job, s: State, e: Event, n: Ref, t: Target)
    requires Enabled(job, s, e) && n in s.phases && FreedNow(s, e, n, t)
    ensures n in Next(job, s, e).phases && Next(job, s, e).phases[n].Unlocking?
    ensures Free(FlagsOf(Next(job, s, e), t))
  {
  }

  lemma StepFree(job: Job, before: State, s: State, e: Event, n: Ref, t: Target)
    requires ValidJob(job) && Sound(job, before, s) && Enabled(job, s, e)
    requires n in job.level && t in job.targets[n] && n in s.phases && s.phases[n].Unlocking?
    requires Free(FlagsOf(s, t))
    ensures n in Next(job, s, e).phases
    ensures !Next(job, s, e).phases[n].Waiting?
    ensures Next(job, s, e).phases[n].Unlocking? ==> Free(FlagsOf(Next(job, s, e), t))
  {
    hide *;
    SoundLocks(job, before, s);
    SameKeysOf(job);
    OthersStay(job, s, e);
    if Actor(e) == Some(n) {
      OwnFree(job, s, e, n, t);
    } else {
      OtherLocks(job, before, s, e);
      if Actor(e).Some? && Actor(e).value in job.targets {
        OneActor(job, n, Actor(e).value, t);
      }
    }
  }

  lemma OwnFree(job: Job, s: State, e: Event, n: Ref, t: Target)
    requires Enabled(job, s, e) && Actor(e) == Some(n) && n in s.phases && s.phases[n].Unlocking?
    requires Free(FlagsOf(s, t))
    ensures n in Next(job, s, e).phases && !Next(job, s, e).phases[n].Waiting?
    ensures Next(job, s, e).phases[n].Unlocking? ==> Free(FlagsOf(Next(job, s, e), t))
  {
  }

  lemma {:induction false} StaysFree(job: Job, before: State, s: State, events: seq<Event>, n: Ref, t: Target)
    requires ValidJob(job) && Sound(job, before, s) && Possible(job, s, events)
    requires Enabled(job, After(job, s, events), Request(n))
    requires n in job.level && t in job.targets[n] && n in s.phases && s.phases[n].Unlocking? && Free(FlagsOf(s, t))
    ensures Free(FlagsOf(After(job, s, events), t))
    decreases |events|
  {
    hide ValidJob, Sound, Enabled, Next, Free, FlagsOf;
    if events != [] {
      var s' := Next(job, s, events[0]);
      SameKeysOf(job);
      StepSound(job, before, s, events[0]);
      StepFree(job, before, s, events[0], n, t);
      if s'.phases[n].Unlocking? {
        StaysFree(job, before, s', events[1..], n, t);
      } else {
        NeverUnlocking(job, s', events[1..], n);
      }
    }
  }

  /** Whenever the deletion of a manifest can be requested, each of its locks was tried, and is off if
      its state could be read and the unlock took effect. */
  lemma {:induction false} FreeAtRequest(job: Job, before: State, s: State, events: seq<Event>, n: Ref, t: Target)
    requires ValidJob(job) && Sound(job, before, s) && Possible(job, s, events)
    requires Enabled(job, After(job, s, events), Request(n))
    requires n in job.level && t in job.targets[n] && n in s.phases && Freed(job, s, events, n, t)
    ensures Free(FlagsOf(After(job, s, events), t))
    decreases |events|
  {
    hide ValidJob, Sound, Enabled, Next, Free, FlagsOf, FreedNow;
    var s' := Next(job, s, events[0]);
    OthersStay(job, s, events[0]);
    StepSound(job, before, s, events[0]);
    if FreedNow(s, events[0], n, t) {
      StepFreed(job, s, events[0], n, t);
      StaysFree(job, before, s', events[1..], n, t);
    } else {
      FreeAtRequest(job, before, s', events[1..], n, t);
    }
  }

  /** A request goes out only once all locks of the manifest were tried, and those that could be read
      and taken off are off. */
  lemma RequestsUnlocked(job: Job, before: State, events: seq<Event>, n: Ref, t: Target)
    requires ValidJob(job) && Initial(job, before) && Possible(job, before, events)
    requires Enabled(job, After(job, before, events), Request(n)) && n in job.level && t in job.targets[n]
    ensures Tried(job, before, events, n, t)
    ensures Freed(job, before, events, n, t) ==> Free(FlagsOf(After(job, before, events), t))
  {
    hide ValidJob, Sound, Enabled, Possible, After, Tried, Freed, Free, FlagsOf;
    SameKeysOf(job);
    InitialSound(job, before);
    AllTried(job, before, events, n, t);
    if Freed(job, before, events, n, t) {
      FreeAtRequest(job, before, before, events, n, t);
    }
  }
}
