/** A deletion run, as the steps its parallel workers, the registry and an interruption can take
    (DeleteManifests and deleteManifest in internal/registry/delete.go, unlock and relock in
    internal/registry/lock.go). */
module Deletion {
  import opened Manifests
  import opened Sums
  import opened Locks

  /** What a run is given: the batch each manifest is in, the manifests to delete before it, the
      locks to take off it first, and the manifests whose deletion the registry accepts. */
  datatype Job = Job(
    level: map<Ref, nat>,
    rounds: nat,
    parents: map<Ref, seq<Ref>>,
    targets: map<Ref, seq<Target>>,
    accepts: set<Ref>)

  /** The lock of a target that a worker has removed, or may have. */
  datatype Removed = Removed(target: Target, relock: Relock)

  datatype Phase =
    | Waiting
    | Unlocking(todo: seq<Target>, removed: seq<Removed>)
    | Requesting(removed: seq<Removed>)
    | Restoring(removed: seq<Removed>)
    | Deleted
    | Failed
    | Blocked
  {
    predicate Settled()
    {
      Deleted? || Failed? || Blocked?
    }

    /** Not deleted, so nothing that depends on it may be. */
    predicate Spared()
    {
      Failed? || Blocked?
    }

    predicate Active()
    {
      Unlocking? || Requesting? || Restoring?
    }
  }

  datatype State = State(
    present: set<Ref>,
    flags: map<Target, Flags>,
    phases: map<Ref, Phase>,
    started: nat,
    deleted: seq<Ref>,
    failures: set<Ref>,
    cancelled: bool,
    unrestored: set<Target>)

  /** One step of a run: an interruption, or the next batch, once all of the last is settled; or of
      one manifest: it is held back for a spared parent, skipped by an interruption, or started; one
      of its locks is taken off, read or not; an interruption while unlocking ends the attempt; its
      deletion is requested and answered; one lock is put back; the failure is settled. A step that
      looks for an interruption first is one with that look: an interruption in between has the
      effect of one right after it. */
  datatype Event =
    | Cancel
    | NextBatch
    | Block(ref: Ref)
    | Skip(ref: Ref)
    | Start(ref: Ref)
    | Unlock(ref: Ref, i: nat, read: bool, outcome: Outcome)
    | Abort(ref: Ref)
    | Request(ref: Ref)
    | Respond(ref: Ref, outcome: Outcome)
    | Restore(ref: Ref, i: nat, outcome: Outcome)
    | Finish(ref: Ref, reported: bool)

  /** A well-formed job: parents lie in earlier batches, and no lock is on two manifests. */
  ghost predicate ValidJob(job: Job)
  {
    && job.parents.Keys == job.level.Keys && job.targets.Keys == job.level.Keys
    && Layered(job) && OwnLocks(job)
  }

  ghost predicate Layered(job: Job)
    requires job.parents.Keys == job.level.Keys
  {
    && (forall n | n in job.level :: job.level[n] < job.rounds)
    && (forall n, p | n in job.level && p in job.parents[n] :: p in job.level && job.level[p] < job.level[n])
  }

  ghost predicate OwnLocks(job: Job)
    requires job.targets.Keys == job.level.Keys
  {
    forall n, m | n in job.level && m in job.level && n != m :: Elements(job.targets[n]) !! Elements(job.targets[m])
  }

  ghost predicate Keyed(job: Job, s: State)
  {
    s.phases.Keys == job.level.Keys
  }

  function FlagsOf(s: State, t: Target): Flags
  {
    if t in s.flags then s.flags[t] else Flags(None, None)
  }

  // ----- the steps

  /** Every manifest of the batches started so far is settled. */
  ghost predicate Quiet(job: Job, s: State)
  {
    forall n | n in job.level && job.level[n] < s.started :: n in s.phases && s.phases[n].Settled()
  }

  ghost predicate HasSparedParent(job: Job, s: State, n: Ref)
  {
    n in job.parents && exists p :: p in job.parents[n] && p in s.phases && s.phases[p].Spared()
  }

  /** The batch of the manifest has started. */
  predicate InPlay(job: Job, s: State, n: Ref)
  {
    n in job.level && n in s.phases && job.level[n] < s.started
  }

  ghost predicate Enabled(job: Job, s: State, e: Event)
  {
    match e
    case Cancel => !s.cancelled
    case NextBatch => !s.cancelled && s.started < job.rounds && Quiet(job, s)
    case Block(n) => InPlay(job, s, n) && s.phases[n].Waiting? && HasSparedParent(job, s, n)
    case Skip(n) => InPlay(job, s, n) && s.phases[n].Waiting? && !HasSparedParent(job, s, n) && s.cancelled
    case Start(n) =>
      InPlay(job, s, n) && n in job.targets && s.phases[n].Waiting? && !HasSparedParent(job, s, n) && !s.cancelled
    case Unlock(n, i, read, outcome) =>
      InPlay(job, s, n) && s.phases[n].Unlocking? && i < |s.phases[n].todo| && !s.cancelled
    case Abort(n) => InPlay(job, s, n) && s.phases[n].Unlocking? && s.cancelled
    case Request(n) => InPlay(job, s, n) && s.phases[n].Unlocking? && s.phases[n].todo == [] && !s.cancelled
    case Respond(n, outcome) =>
      InPlay(job, s, n) && s.phases[n].Requesting? &&
      if outcome.Confirmed? then n in job.accepts else n !in job.accepts || s.cancelled
    case Restore(n, i, outcome) => InPlay(job, s, n) && s.phases[n].Restoring? && i < |s.phases[n].removed|
    case Finish(n, reported) =>
      InPlay(job, s, n) && s.phases[n].Restoring? && s.phases[n].removed == [] && (reported || s.cancelled)
  }

  function Without<T>(s: seq<T>, i: nat): seq<T>
    requires i < |s|
  {
    s[..i] + s[i + 1..]
  }

  function Become(s: State, n: Ref, phase: Phase): State
  {
    s.(phases := s.phases[n := phase])
  }

  /** One lock is taken off: if its state can be read and it is locked, it is unlocked, and noted
      for restoring whatever became of the request. */
  function TakeOff(s: State, n: Ref, i: nat, read: bool, outcome: Outcome): State
    requires n in s.phases && s.phases[n].Unlocking? && i < |s.phases[n].todo|
  {
    var phase := s.phases[n];
    var t := phase.todo[i];
    var flags := FlagsOf(s, t);
    if read && Locked(flags) then
      s.(phases := s.phases[n := Unlocking(Without(phase.todo, i), phase.removed + [Removed(t, RelockOf(flags))])],
         flags := s.flags[t := Unlocked(flags, outcome)])
    else Become(s, n, Unlocking(Without(phase.todo, i), phase.removed))
  }

  function PutBack(s: State, n: Ref, i: nat, outcome: Outcome): State
    requires n in s.phases && s.phases[n].Restoring? && i < |s.phases[n].removed|
  {
    var r := s.phases[n].removed[i];
    s.(phases := s.phases[n := Restoring(Without(s.phases[n].removed, i))],
       flags := s.flags[r.target := Relocked(FlagsOf(s, r.target), r.relock, outcome)],
       unrestored := if outcome.Applied() then s.unrestored else s.unrestored + {r.target})
  }

  function Answer(s: State, n: Ref, outcome: Outcome): State
    requires n in s.phases && s.phases[n].Requesting?
  {
    match outcome
    case Confirmed => Become(s, n, Deleted).(present := s.present - {n}, deleted := s.deleted + [n])
    case Lost => Become(s, n, Restoring(s.phases[n].removed)).(present := s.present - {n})
    case Refused => Become(s, n, Restoring(s.phases[n].removed))
  }

  function Next(job: Job, s: State, e: Event): State
    requires Enabled(job, s, e)
  {
    match e
    case Cancel => s.(cancelled := true)
    case NextBatch => s.(started := s.started + 1)
    case Block(n) => Become(s, n, Blocked)
    case Skip(n) => Become(s, n, Failed)
    case Start(n) => Become(s, n, Unlocking(job.targets[n], []))
    case Unlock(n, i, read, outcome) => TakeOff(s, n, i, read, outcome)
    case Abort(n) => Become(s, n, Restoring(s.phases[n].removed))
    case Request(n) => Become(s, n, Requesting(s.phases[n].removed))
    case Respond(n, outcome) => Answer(s, n, outcome)
    case Restore(n, i, outcome) => PutBack(s, n, i, outcome)
    case Finish(n, reported) => Become(s, n, Failed).(failures := if reported then s.failures + {n} else s.failures)
  }

  ghost predicate Initial(job: Job, s: State)
  {
    && Keyed(job, s) && s.started == 0 && s.deleted == [] && s.failures == {} && !s.cancelled && s.unrestored == {}
    && job.level.Keys <= s.present && forall n | n in job.level :: s.phases[n] == Waiting
  }

  /** The events can happen one after another. */
  ghost predicate Possible(job: Job, s: State, events: seq<Event>)
    decreases |events|
  {
    events == [] || (Enabled(job, s, events[0]) && Possible(job, Next(job, s, events[0]), events[1..]))
  }

  ghost function After(job: Job, s: State, events: seq<Event>): State
    requires Possible(job, s, events)
    decreases |events|
  {
    if events == [] then s else After(job, Next(job, s, events[0]), events[1..])
  }

  /** The run is over: its batches are done or it was interrupted, and no worker is busy. */
  ghost predicate Finished(job: Job, s: State)
  {
    (s.started == job.rounds || s.cancelled) && Quiet(job, s)
  }

  /** The run returns no error. */
  predicate Succeeded(s: State)
  {
    s.failures == {} && !s.cancelled
  }
}
