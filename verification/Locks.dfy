/** Locks on manifests and tags, how they are removed and what restores them
    (unlock and locked in internal/registry/acr/acr.go). */
module Locks {
  import opened Manifests

  /** What a lock is on: a manifest, or a tag of a repository. */
  datatype Target = OnManifest(ref: Ref) | OnTag(repository: string, tag: string)

  /** The two switches of a target; the registry may leave either out. */
  datatype Flags = Flags(canDelete: Option<bool>, canWrite: Option<bool>)

  predicate Disabled(flag: Option<bool>)
  {
    flag == Some(false)
  }

  predicate Locked(flags: Flags)
  {
    Disabled(flags.canDelete) || Disabled(flags.canWrite)
  }

  /** An update leaves a switch alone when it names no value for it. */
  function Updated(flags: Flags, canDelete: Option<bool>, canWrite: Option<bool>): Flags
  {
    Flags(if canDelete.Some? then canDelete else flags.canDelete, if canWrite.Some? then canWrite else flags.canWrite)
  }

  /** What sets back the switches an unlock turned on. */
  datatype Relock = Relock(canDelete: Option<bool>, canWrite: Option<bool>)

  function OnlyDisabled(flag: Option<bool>): Option<bool>
  {
    if Disabled(flag) then flag else None
  }

  function RelockOf(flags: Flags): Relock
  {
    Relock(OnlyDisabled(flags.canDelete), OnlyDisabled(flags.canWrite))
  }

  function Restored(flags: Flags, relock: Relock): Flags
  {
    Updated(flags, relock.canDelete, relock.canWrite)
  }

  const ENABLED := Flags(Some(true), Some(true))

  /** The same switches are off. */
  ghost predicate SameLocks(flags: Flags, other: Flags)
  {
    && (flags.canDelete == Some(false) <==> other.canDelete == Some(false))
    && (flags.canWrite == Some(false) <==> other.canWrite == Some(false))
  }

  /** Only switches that were off are off. */
  ghost predicate NoNewLocks(before: Flags, after: Flags)
  {
    && (after.canDelete == Some(false) ==> before.canDelete == Some(false))
    && (after.canWrite == Some(false) ==> before.canWrite == Some(false))
  }

  /** Neither switch is off. */
  ghost predicate Free(flags: Flags)
  {
    flags.canDelete != Some(false) && flags.canWrite != Some(false)
  }

  /** How a request to the registry ends: it is confirmed, or it fails although it was applied
      (the response was lost), or it fails without effect. */
  datatype Outcome = Confirmed | Lost | Refused
  {
    predicate Applied()
    {
      !Refused?
    }
  }

  /** What an unlock makes of the switches: both are on unless neither was off. */
  function Unlocked(flags: Flags, outcome: Outcome): Flags
  {
    if Locked(flags) && outcome.Applied() then ENABLED else flags
  }

  /** What a restore makes of the switches. */
  function Relocked(flags: Flags, relock: Relock, outcome: Outcome): Flags
  {
    if outcome.Applied() then Restored(flags, relock) else flags
  }

  /** The switches of one target, as the registry holds them. */
  class Lockable {
    var flags: Flags

    method Write(canDelete: Option<bool>, canWrite: Option<bool>, outcome: Outcome) returns (ok: bool)
      modifies this
      ensures ok == outcome.Confirmed?
      ensures flags == if outcome.Applied() then Updated(old(flags), canDelete, canWrite) else old(flags)
      ensures !outcome.Refused? ==>
                && (flags.canDelete == if canDelete.Some? then canDelete else old(flags).canDelete)
                && (flags.canWrite == if canWrite.Some? then canWrite else old(flags).canWrite)
    {
      if outcome.Applied() {
        flags := Updated(flags, canDelete, canWrite);
      }
      ok := outcome.Confirmed?;
    }

    /** Enables both switches unless neither is off; whatever became of the request, restoring
        afterwards leaves exactly the switches off that were off before. */
    method Unlock(outcome: Outcome) returns (relock: Option<Relock>, ok: bool)
      modifies this
      ensures relock == if Locked(old(flags)) then Some(RelockOf(old(flags))) else None
      ensures flags == Unlocked(old(flags), outcome)
      ensures ok <==> Free(old(flags)) || outcome.Confirmed?
      ensures flags == if Free(old(flags)) || outcome.Refused? then old(flags) else Flags(Some(true), Some(true))
      ensures relock.None? <==> Free(old(flags))
      ensures relock.Some? ==>
                && (relock.value.canDelete == if old(flags).canDelete == Some(false) then Some(false) else None)
                && (relock.value.canWrite == if old(flags).canWrite == Some(false) then Some(false) else None)
      ensures relock.Some? ==> SameLocks(Restored(flags, relock.value), old(flags))
    {
      if !Locked(flags) {
        return None, true;
      }
      relock := Some(RelockOf(flags));
      ok := Write(Some(true), Some(true), outcome);
    }

    method Restore(relock: Relock, outcome: Outcome) returns (ok: bool)
      modifies this
      ensures ok == outcome.Confirmed?
      ensures flags == Relocked(old(flags), relock, outcome)
    {
      ok := Write(relock.canDelete, relock.canWrite, outcome);
    }
  }

  /** Restoring brings back exactly the original locks from any state that has no other lock. */
  lemma RestoreExact(before: Flags, now: Flags)
    requires NoNewLocks(before, now)
    ensures SameLocks(Restored(now, RelockOf(before)), before)
    ensures NoNewLocks(before, Restored(now, RelockOf(before)))
  {
  }
}
