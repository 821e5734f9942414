/**
 The workspace's own methods, in the order of ncc/guest_workspace.py, each operation one step
 of the protocol's machine. Between any two operations other processes may take any steps,
 and every operation may raise.
 */
module GuestWorkspace {
  import opened Wrappers
  import opened Octets
  import opened GuestDisk
  import opened WorkspaceProtocol

  datatype Error = Refused | Interrupted

  class Workspace {
    var system: System
    var schedule: seq<Event>      // what the other processes will try to do
    var faults: seq<bool>         // which of the coming operations raise; none beyond its end
    ghost var run: seq<Event>

    ghost predicate Valid()
      reads this
    {
      Legal(run) && Sheltered(run) && system == Reach(run) && Inv(system)
    }

    ghost predicate Holds(me: Process, token: Name, job: Job)
      reads this
    {
      Valid() && PhaseOf(system, me) == Holding(token, job)
    }

    /** Opens a workspace as some run has left it, through whatever power failures. */
    constructor (system: System, ghost run: seq<Event>, schedule: seq<Event>, faults: seq<bool>)
      requires Legal(run) && Sheltered(run) && system == Reach(run)
      ensures Valid() && this.system == system && this.schedule == schedule && this.faults == faults
    {
      this.system, this.run, this.schedule, this.faults := system, run, schedule, faults;
      new;
      ShelteredSafety(run);
    }

    method Take(e: Event)
      requires Valid() && Allowed(system, e) && !e.LosePower?
      modifies this
      ensures Valid() && system == After(old(system), e) && schedule == old(schedule) && faults == old(faults)
    {
      hide Inv, Allowed, After;
      StepKeeps(system, e);
      assert (run + [e])[..|run|] == run;
      run := run + [e];
      system := After(system, e);
    }

    /** Other processes run for a while; none of them can touch what the lease protects. */
    method Yield(me: Process)
      requires Valid() && !PhaseOf(system, me).Dead?
      modifies this
      ensures Valid() && PhaseOf(system, me) == old(PhaseOf(system, me)) && old(system.spent) <= system.spent
      ensures faults == old(faults)
      ensures forall token :: Buried(old(system), token) ==> Buried(system, token)
      ensures Claims(PhaseOf(system, me)) ==> Alike(old(system.disk), system.disk) && system.spent == old(system.spent)
    {
      hide Inv, Reach, Legal, Sheltered;
      var left: nat := *;
      while left > 0 && schedule != []
        invariant Valid() && PhaseOf(system, me) == old(PhaseOf(system, me)) && old(system.spent) <= system.spent
        invariant faults == old(faults)
        invariant forall token :: Buried(old(system), token) ==> Buried(system, token)
        invariant Claims(PhaseOf(system, me)) ==>
          Alike(old(system.disk), system.disk) && system.spent == old(system.spent)
      {
        var e := schedule[0];
        schedule := schedule[1..];
        if !e.LosePower? && !By(e, me) && Allowed(system, e) {
          OthersKeepOut(system, e, me);
          StaysBuried(system, e);
          Take(e);
        }
        left := left - 1;
      }
    }

    /** Whether the next operation raises. */
    method Fault() returns (raised: bool)
      modifies this`faults
      ensures raised == !Calm(old(faults), 1) && faults == Drop(old(faults), 1)
    {
      raised := faults != [] && faults[0];
      faults := if faults == [] then [] else faults[1..];
    }

    /** One operation of the publish or select that `me` is in the middle of. */
    method Operate(me: Process, token: Name, job: Job, content: seq<Octet>) returns (raised: bool)
      requires Holds(me, token, job)
      modifies this
      ensures raised == !Calm(old(faults), 1) && faults == Drop(old(faults), 1)
      ensures raised ==> Holds(me, token, Raised(job)) && Alike(old(system.disk), system.disk)
      ensures !raised ==>
        var (disk, next) := Advance(old(system.disk), me, job, content);
        Holds(me, token, next) && Alike(disk, system.disk)
    {
      hide Inv, Reach, Legal, Sheltered, Advance, Calm, Drop;
      raised := Fault();
      Take(if raised then Raise(me) else Proceed(me, content));
      Yield(me);
    }

    // ----- the lease -----

    /** One operation on the lease, before other processes go on. */
    method Perform(me: Process, e: Event)
      requires Valid() && Allowed(system, e) && !e.LosePower? && !PhaseOf(After(system, e), me).Dead?
      modifies this
      ensures Valid() && PhaseOf(system, me) == PhaseOf(After(old(system), e), me) && faults == old(faults)
      ensures After(old(system), e).spent <= system.spent
      ensures forall token :: Buried(After(old(system), e), token) ==> Buried(system, token)
    {
      hide Inv, Reach, Legal, Sheltered, Allowed, After, Buried;
      Take(e);
      Yield(me);
    }

    /** Make the lease directory, then its owner record; on an exception take both away again.
        It succeeds exactly when no lease stands and none of its operations raises. */
    method Acquire(me: Process, token: Name) returns (ok: bool)
      requires Valid() && PhaseOf(system, me).Idle? && token !in system.ages
      modifies this
      ensures ok <==> old(system.disk.lease).None? && Calm(old(faults), ACQUIRE_STEPS)
      ensures Valid() && (ok ==> PhaseOf(system, me) == Holding(token, Resting))
      ensures !ok ==> PhaseOf(system, me).Idle?
      ensures old(system.disk.lease).Some? ==> system == old(system)
    {
      hide Inv, Reach, Legal, Sheltered, Calm, Drop;
      NextFault(faults, 0, ACQUIRE_STEPS);
      NextFault(faults, 1, ACQUIRE_STEPS);
      NextFault(faults, 2, ACQUIRE_STEPS);
      var raised := Fault();
      if raised || system.disk.lease.Some? { return false; }
      Perform(me, Event.Acquire(me, token));
      raised := Fault();
      if !raised {
        Perform(me, WriteOwner(me));
        raised := Fault();
        if !raised {
          Perform(me, FlushOwner(me));
          return true;
        }
      }
      Perform(me, GiveUp(me));
      Perform(me, RemoveLease(me));
      return false;
    }

    /** Give the lease up. A token that is not the standing lease's changes nothing; with the
        right one the lease ends, and no power failure brings it or its token back. */
    method Release(me: Process, token: Name) returns (ok: bool)
      requires Valid() && !PhaseOf(system, me).Dead?
      requires PhaseOf(system, me) == Holding(token, Resting) || !OwnedBy(system.disk.lease, token)
      modifies this
      ensures Valid() && (ok <==> old(PhaseOf(system, me)) == Holding(token, Resting))
      ensures !ok ==> system == old(system)
      ensures ok ==> PhaseOf(system, me).Idle? && Buried(system, token)
    {
      hide Inv, Reach, Legal, Sheltered;
      TokenDecides(system, me, token);
      if !OwnedBy(system.disk.lease, token) { return false; }
      Perform(me, Event.Release(me, token));
      Perform(me, RemoveOwner(me));
      Perform(me, RemoveLease(me));
      RootBuries(system, me, token);
      Perform(me, FlushRoot(me));
      return true;
    }

    // ----- select -----

    /** Verify a generation, write a flushed pointer beside the old one, and put it in place. */
    method Point(me: Process, token: Name, id: Name, origin: Option<Plan>) returns (ok: bool)
      requires Holds(me, token, Pointing(id, origin, Verify))
      modifies this
      ensures Holds(me, token, Ended(origin))
      ensures system.disk.generations == old(system.disk.generations) && system.disk.pending == old(system.disk.pending)
      ensures ok ==> system.disk.current == Some(Pointer.Names(id)) && Accepts(system.disk, id)
      ensures !ok ==> system.disk.current in {old(system.disk.current), Some(Pointer.Names(id))}
      ensures !Accepts(old(system.disk), id) ==> system.disk.current == old(system.disk.current)
      ensures ok <==> Accepts(old(system.disk), id) && Calm(old(faults), POINT_STEPS)
      ensures (ok ==> faults == Drop(old(faults), POINT_STEPS)) && (Faultless(old(faults)) ==> Faultless(faults))
    {
      hide Inv, Reach, Legal, Sheltered, Verified, Calm, Drop, Faultless;
      NextFault(faults, 0, POINT_STEPS);
      NextFault(faults, 1, POINT_STEPS);
      NextFault(faults, 2, POINT_STEPS);
      NextFault(faults, 3, POINT_STEPS);
      NextFault(faults, 4, POINT_STEPS);
      var raised := Operate(me, token, Pointing(id, origin, Verify), []);
      if raised || !Accepts(system.disk, id) { return false; }
      raised := Operate(me, token, Pointing(id, origin, WriteTemporary), []);
      if raised { return false; }
      raised := Operate(me, token, Pointing(id, origin, FlushTemporary), []);
      if raised { return false; }
      assert me in system.disk.temporaries && system.disk.temporaries[me] == File(id, true);
      raised := Operate(me, token, Pointing(id, origin, Replace), []);
      if raised { return false; }
      raised := Operate(me, token, Pointing(id, origin, SyncRoot), []);
      return !raised;
    }

    /** The `finally` clauses: the temporary pointer goes, and so does an unfinished save. */
    method Unwind(me: Process, token: Name, pending: Option<Name>) returns (clean: bool)
      requires Holds(me, token, Unwinding(pending))
      modifies this
      ensures Holds(me, token, Resting)
      ensures system.disk.generations == old(system.disk.generations) && system.disk.current == old(system.disk.current)
      ensures clean ==> me !in system.disk.temporaries && (pending.Some? ==> pending.value !in system.disk.pending)
      ensures clean <==> Calm(old(faults), 1)
    {
      hide Inv, Reach, Legal, Sheltered;
      var raised := Operate(me, token, Unwinding(pending), []);
      return !raised;
    }

    method Select(me: Process, token: Name, id: Name) returns (ok: bool)
      requires Holds(me, token, Resting)
      modifies this
      ensures Holds(me, token, Resting) && system.disk.generations == old(system.disk.generations)
      ensures ok ==> system.disk.current == Some(Pointer.Names(id)) && Accepts(system.disk, id)
      ensures !ok ==> system.disk.current in {old(system.disk.current), Some(Pointer.Names(id))}
      ensures !Accepts(old(system.disk), id) ==> system.disk.current == old(system.disk.current)
      ensures ok <==> Accepts(old(system.disk), id) && Calm(old(faults), POINT_STEPS + 1)
      ensures ok || Faultless(old(faults)) ==> me !in system.disk.temporaries
    {
      hide Inv, Reach, Legal, Sheltered, Verified, Calm, Drop, Faultless;
      FaultsInTurn(faults);
      Take(Event.Select(me, id));
      ok := Point(me, token, id, None);
      FaultlessIsCalm(faults, 1);
      var clean := Unwind(me, token, None);
      ok := ok && clean;
    }

    // ----- publish -----

    ghost predicate Copies(id: Name, contents: seq<seq<Octet>>, k: nat)
      reads this
    {
      k <= |contents| && id in system.disk.pending && Carries(system.disk.pending[id], contents, k)
    }

    /** Copy and flush one medium, and note the copy's identity. */
    method CopyMedium(me: Process, token: Name, plan: Plan, k: nat, contents: seq<seq<Octet>>)
      returns (ok: bool, noted: Plan)
      requires k < MEDIA == |contents| && Holds(me, token, Building(plan, Copy(k))) && Copies(plan.id, contents, k)
      modifies this
      ensures noted.id == plan.id && noted.parent == plan.parent && noted.provenance == plan.provenance
      ensures system.disk.generations == old(system.disk.generations)
      ensures (ok <==> Calm(old(faults), 2)) && (ok ==> faults == Drop(old(faults), 2))
      ensures Faultless(old(faults)) ==> Faultless(faults)
      ensures system.disk.current == old(system.disk.current)
      ensures ok ==> Holds(me, token, Building(noted, NextStage(Flush(k)))) && Copies(plan.id, contents, k + 1)
      ensures !ok ==> Holds(me, token, Unwinding(Some(plan.id)))
    {
      hide Inv, Reach, Legal, Sheltered, Calm, Drop, Faultless;
      FaultsInTurn(faults);
      noted := plan;
      var raised := Operate(me, token, Building(plan, Copy(k)), contents[k]);
      if raised { return false, plan; }
      noted := Noted(system.disk, plan, Flush(k));
      raised := Operate(me, token, Building(plan, Flush(k)), []);
      return !raised, noted;
    }

    /** Copy and flush all media in turn. */
    method CopyMedia(me: Process, token: Name, first: Plan, contents: seq<seq<Octet>>) returns (ok: bool, plan: Plan)
      requires |contents| == MEDIA && Holds(me, token, Building(first, Copy(0))) && Copies(first.id, contents, 0)
      modifies this
      ensures plan.id == first.id && plan.parent == first.parent && plan.provenance == first.provenance
      ensures system.disk.current == old(system.disk.current)
        && system.disk.generations == old(system.disk.generations)
      ensures (ok <==> Calm(old(faults), COPY_STEPS)) && (ok ==> faults == Drop(old(faults), COPY_STEPS))
      ensures Faultless(old(faults)) ==> Faultless(faults)
      ensures ok ==> Holds(me, token, Building(plan, WriteManifest)) && Copies(plan.id, contents, MEDIA)
      ensures !ok ==> Holds(me, token, Unwinding(Some(plan.id)))
    {
      hide Valid, Carries, Copies, Calm, Drop, Faultless;
      plan, ok := first, true;
      ghost var all := faults;
      NoFault(all);
      for k := 0 to MEDIA
        invariant plan.id == first.id && plan.parent == first.parent && plan.provenance == first.provenance
        invariant Holds(me, token, Building(plan, if k < MEDIA then Copy(k) else WriteManifest))
        invariant Copies(plan.id, contents, k) && ok
        invariant Calm(all, 2 * k) && faults == Drop(all, 2 * k) && (Faultless(all) ==> Faultless(faults))
        invariant system.disk.current == old(system.disk.current)
          && system.disk.generations == old(system.disk.generations)
      {
        NextFaults(all, 2 * k, 2, COPY_STEPS);
        ok, plan := CopyMedium(me, token, plan, k, contents);
        if !ok { return false, plan; }
      }
    }

    /** Fill in the pending directory without touching its copies. */
    method Fill(me: Process, token: Name, plan: Plan, stage: Stage, contents: seq<seq<Octet>>) returns (raised: bool)
      requires stage.WriteManifest? || stage.FlushManifest? || stage.Sync?
      requires |contents| == MEDIA && Holds(me, token, Building(plan, stage)) && Copies(plan.id, contents, MEDIA)
      modifies this
      ensures system.disk.current == old(system.disk.current) && system.disk.generations == old(system.disk.generations)
      ensures raised ==> Holds(me, token, Unwinding(Some(plan.id)))
      ensures !raised ==> Holds(me, token, Building(plan, NextStage(stage))) && Copies(plan.id, contents, MEDIA)
      ensures raised == !Calm(old(faults), 1) && faults == Drop(old(faults), 1)
    {
      hide Inv, Reach, Legal, Sheltered, Advance, Carries, Calm, Drop;
      FillQuietly(system.disk, me, plan, stage, contents);
      raised := Operate(me, token, Building(plan, stage), []);
    }

    /** Write and flush the manifest, then flush the four directories, innermost first. */
    method Seal(me: Process, token: Name, plan: Plan, contents: seq<seq<Octet>>) returns (raised: bool)
      requires |contents| == MEDIA && Holds(me, token, Building(plan, WriteManifest))
        && Copies(plan.id, contents, MEDIA)
      modifies this
      ensures system.disk.current == old(system.disk.current) && system.disk.generations == old(system.disk.generations)
      ensures raised ==> Holds(me, token, Unwinding(Some(plan.id)))
      ensures !raised ==> Holds(me, token, Building(plan, Rename)) && Copies(plan.id, contents, MEDIA)
      ensures (raised <==> !Calm(old(faults), SEAL_STEPS)) && (!raised ==> faults == Drop(old(faults), SEAL_STEPS))
      ensures Faultless(old(faults)) ==> Faultless(faults)
    {
      hide Valid, Carries, Copies, Calm, Drop, Faultless;
      ghost var all := faults;
      NextFault(all, 0, SEAL_STEPS);
      raised := Fill(me, token, plan, WriteManifest, contents);
      if raised { return true; }
      NextFault(all, 1, SEAL_STEPS);
      raised := Fill(me, token, plan, FlushManifest, contents);
      if raised { return true; }
      for j := 0 to |SYNC_ORDER|
        invariant Holds(me, token, Building(plan, if j < |SYNC_ORDER| then Sync(j) else Rename))
        invariant Copies(plan.id, contents, MEDIA)
        invariant Calm(all, 2 + j) && faults == Drop(all, 2 + j)
        invariant Faultless(all) ==> Faultless(faults)
        invariant system.disk.current == old(system.disk.current)
          && system.disk.generations == old(system.disk.generations)
      {
        NextFault(all, 2 + j, SEAL_STEPS);
        raised := Fill(me, token, plan, Sync(j), contents);
        if raised { return true; }
      }
      return false;
    }

    /** Seal the pending directory and rename it into place. */
    method Finish(me: Process, token: Name, plan: Plan, contents: seq<seq<Octet>>) returns (ok: bool)
      requires |contents| == MEDIA && Holds(me, token, Building(plan, WriteManifest))
        && Copies(plan.id, contents, MEDIA)
      requires plan.id !in system.disk.generations
      modifies this
      ensures system.disk.current == old(system.disk.current)
      ensures Adds(old(system.disk.generations), system.disk.generations, plan.id)
      ensures ok ==> Holds(me, token, Pointing(plan.id, Some(plan), Verify)) && plan.id in system.disk.generations
      ensures ok ==> Carries(system.disk.generations[plan.id], contents, MEDIA)
      ensures ok ==> HasManifest(system.disk.generations[plan.id], plan)
      ensures (ok <==> Calm(old(faults), SEAL_STEPS + 2)) && (ok ==> faults == Drop(old(faults), SEAL_STEPS + 2))
      ensures Faultless(old(faults)) ==> Faultless(faults)
      ensures !ok ==> Holds(me, token, Unwinding(Some(plan.id)))
    {
      hide Inv, Reach, Legal, Sheltered, Advance, Carries, Calm, Drop, Faultless;
      FaultsInTurn(faults);
      var raised := Seal(me, token, plan, contents);
      if raised { return false; }
      SealedHasManifest(this, me, token, plan);
      RenameInPlace(system.disk, me, plan, contents);
      raised := Operate(me, token, Building(plan, Rename), []);
      if raised { return false; }
      SyncQuietly(system.disk, me, plan);
      raised := Operate(me, token, Building(plan, SyncGenerations), []);
      return !raised;
    }

    /** Build a complete generation in a pending directory and put it in place. */
    method Build(me: Process, token: Name, first: Plan, contents: seq<seq<Octet>>) returns (ok: bool, plan: Plan)
      requires |contents| == MEDIA && first.media == [] && Holds(me, token, Building(first, MakeGenerations))
      modifies this
      ensures plan.id == first.id && plan.parent == first.parent && plan.provenance == first.provenance
      ensures system.disk.current == old(system.disk.current)
      ensures Adds(old(system.disk.generations), system.disk.generations, plan.id)
      ensures ok ==> Holds(me, token, Pointing(plan.id, Some(plan), Verify)) && plan.id in system.disk.generations
      ensures ok ==> Carries(system.disk.generations[plan.id], contents, MEDIA)
      ensures ok ==> HasManifest(system.disk.generations[plan.id], plan)
      ensures (ok <==> Calm(old(faults), BUILD_STEPS)) && (ok ==> faults == Drop(old(faults), BUILD_STEPS))
      ensures Faultless(old(faults)) ==> Faultless(faults)
      ensures !ok ==> Holds(me, token, Unwinding(Some(plan.id))) || Holds(me, token, Resting)
    {
      plan := first;
      assert plan.id !in system.disk.generations by { BuildingIsNew(this, me, token, plan, MakeGenerations); }
      hide Valid, Carries, Copies, Calm, Drop, Faultless, HasManifest;
      ghost var all := faults;
      NextFaults(all, 2, COPY_STEPS, BUILD_STEPS);
      NextFaults(all, 2 + COPY_STEPS, SEAL_STEPS + 2, BUILD_STEPS);
      CalmLess(all, 2, BUILD_STEPS);
      ok := MakeRoom(me, token, plan, contents);
      if !ok { return false, plan; }
      ok, plan := CopyMedia(me, token, plan, contents);
      if !ok { return false, plan; }
      ok := Finish(me, token, plan, contents);
    }

    /** Make the directory of generations, and in it a pending one. */
    method MakeRoom(me: Process, token: Name, plan: Plan, contents: seq<seq<Octet>>) returns (ok: bool)
      requires Holds(me, token, Building(plan, MakeGenerations))
      modifies this
      ensures system.disk.current == old(system.disk.current)
        && system.disk.generations == old(system.disk.generations)
      ensures (ok <==> Calm(old(faults), 2)) && (ok ==> faults == Drop(old(faults), 2))
      ensures Faultless(old(faults)) ==> Faultless(faults)
      ensures ok ==> Holds(me, token, Building(plan, Copy(0))) && Copies(plan.id, contents, 0)
      ensures !ok ==> Holds(me, token, Resting)
    {
      hide Inv, Reach, Legal, Sheltered, Calm, Drop, Faultless;
      NextFault(faults, 0, 2);
      NextFault(faults, 1, 2);
      var raised := Operate(me, token, Building(plan, MakeGenerations), []);
      if raised { return false; }
      raised := Operate(me, token, Building(plan, MakePending), []);
      return !raised;
    }

    /** Save `contents` as a new generation on top of `parent`. Whatever happens, earlier saves
        stay as they are. It succeeds exactly when the media are complete and not empty, the
        pointer names the parent, the provenance suits it and no operation raises; then the
        pointer has moved to a generation that holds exactly these contents. When it is refused
        nothing has changed, and when nothing raises nothing unfinished is left. */
    method Publish(me: Process, token: Name, parent: Option<Name>, provenance: Provenance, contents: seq<seq<Octet>>,
                   id: Name) returns (r: Result<Name, Error>)
      requires Holds(me, token, Resting) && id !in system.ages
      modifies this
      ensures Valid()
      ensures forall g :: g in old(system.disk.generations) ==>
        g in system.disk.generations && system.disk.generations[g] == old(system.disk.generations[g])
      ensures r.Ok? ==>
        && r.value == id && MayPublish(old(system.disk), parent) && system.disk.current == Some(Pointer.Names(id))
        && Accepts(system.disk, id) && ParentOf(system.disk.generations[id]) == parent
        && |contents| == MEDIA && Carries(system.disk.generations[id], contents, MEDIA)
      ensures r.Err? ==> system.disk.current in {old(system.disk.current), Some(Pointer.Names(id))}
      ensures r == Err(Refused) <==> |contents| != MEDIA || !MayPublish(old(system.disk), parent)
      ensures r == Err(Refused) ==> system == old(system)
      ensures r.Ok? <==>
        && |contents| == MEDIA && (forall k :: 0 <= k < MEDIA ==> contents[k] != [])
        && MayPublish(old(system.disk), parent) && Suits(provenance, parent) && Calm(old(faults), PUBLISH_STEPS)
      ensures r.Ok? || (r == Err(Interrupted) && Faultless(old(faults))) ==>
        me !in system.disk.temporaries && id !in system.disk.pending
      ensures Holds(me, token, Resting)
    {
      hide Inv, Reach, Legal, Sheltered, Verified, Carries, Calm, Drop, Faultless;
      FaultsInTurn(faults);
      if |contents| != MEDIA || !MayPublish(system.disk, parent) { return Err(Refused); }
      FreshIsNew(this, parent, id);
      Take(Event.Publish(me, parent, provenance, id));
      var ok, plan := Build(me, token, Plan(id, parent, provenance, []), contents);
      FaultlessIsCalm(old(faults), BUILD_STEPS);
      if PhaseOf(system, me).job.Resting? { return Err(Interrupted); }
      if ok {
        PointingIsSaved(this, me, token, plan);
        NewIsAccepted(this, plan, contents);
        ok := Point(me, token, id, Some(plan));
      }
      FaultlessIsCalm(faults, 1);
      var clean := Unwind(me, token, Some(id));
      return if ok && clean then Ok(id) else Err(Interrupted);
    }
  }

  /** The lease's owner record is the holder's own. */
  lemma TokenDecides(s: System, me: Process, token: Name)
    requires Inv(s) && (PhaseOf(s, me) == Holding(token, Resting) || !OwnedBy(s.disk.lease, token))
    ensures OwnedBy(s.disk.lease, token) <==> PhaseOf(s, me) == Holding(token, Resting)
  {
    hide SavesInv, PointerInv, JobsInv;
  }

  /** The first `k` media hold the first `k` contents. */
  predicate Carries(tree: Tree, contents: seq<seq<Octet>>, k: nat)
    requires k <= |contents|
  {
    forall i :: 0 <= i < k ==> i in tree.files && tree.files[i].value == contents[i]
  }

  /** At most the generation `id` is new. */
  predicate Adds(before: map<Name, Tree>, after: map<Name, Tree>, id: Name) {
    && (forall g :: g in before ==> g in after && after[g] == before[g])
    && after.Keys <= before.Keys + {id}
  }

  lemma FillQuietly(disk: Disk, p: Process, plan: Plan, stage: Stage, contents: seq<seq<Octet>>)
    requires stage.WriteManifest? || stage.FlushManifest? || stage.Sync?
    requires |contents| == MEDIA && plan.id in disk.pending && Carries(disk.pending[plan.id], contents, MEDIA)
    ensures var (after, job) := Advance(disk, p, Building(plan, stage), []);
      && after.generations == disk.generations && after.current == disk.current
      && job == Building(plan, NextStage(stage))
      && plan.id in after.pending && Carries(after.pending[plan.id], contents, MEDIA)
  {
  }

  lemma RenameInPlace(disk: Disk, p: Process, plan: Plan, contents: seq<seq<Octet>>)
    requires plan.id in disk.pending && plan.id !in disk.generations
    ensures var (after, job) := Advance(disk, p, Building(plan, Rename), []);
      && Adds(disk.generations, after.generations, plan.id) && after.current == disk.current
      && job == Building(plan, SyncGenerations)
      && plan.id in after.generations && after.generations[plan.id] == disk.pending[plan.id]
  {
  }

  lemma SyncQuietly(disk: Disk, p: Process, plan: Plan)
    ensures var (after, job) := Advance(disk, p, Building(plan, SyncGenerations), []);
      after.generations == disk.generations && after.current == disk.current
        && job == Pointing(plan.id, Some(plan), Verify)
  {
  }

  lemma BuildingIsNew(w: Workspace, me: Process, token: Name, plan: Plan, stage: Stage)
    requires w.Holds(me, token, Building(plan, stage)) && !stage.SyncGenerations?
    ensures plan.id !in w.system.disk.generations
  {
    assert JobOk(w.system.disk, w.system.ages, me, Building(plan, stage));
  }

  lemma PointingIsSaved(w: Workspace, me: Process, token: Name, plan: Plan)
    requires w.Holds(me, token, Pointing(plan.id, Some(plan), Verify))
    ensures plan.id in w.system.disk.generations && ParentOf(w.system.disk.generations[plan.id]) == plan.parent
  {
    assert JobOk(w.system.disk, w.system.ages, me, Pointing(plan.id, Some(plan), Verify));
  }

  lemma FreshIsNew(w: Workspace, parent: Option<Name>, id: Name)
    requires w.Valid() && id !in w.system.ages && MayPublish(w.system.disk, parent)
    ensures id !in w.system.disk.generations && parent != Some(id)
  {
    assert Names?(w.system.disk, w.system.disk.current);
  }

  lemma SealedHasManifest(w: Workspace, me: Process, token: Name, plan: Plan)
    requires w.Holds(me, token, Building(plan, Rename))
    ensures plan.id in w.system.disk.pending && HasManifest(w.system.disk.pending[plan.id], plan)
  {
    assert JobOk(w.system.disk, w.system.ages, me, Building(plan, Rename));
  }

  /** What the provenance of a seed, and of a save over a parent, must be. */
  predicate Suits(provenance: Provenance, parent: Option<Name>) {
    if parent.None? then provenance.resultIsAbsolute.None? && provenance.shutdownIsDigest.None?
    else provenance.resultIsAbsolute == Some(true) && provenance.shutdownIsDigest == Some(true)
  }

  /** When verification accepts a generation just put in place. */
  lemma NewIsAccepted(w: Workspace, plan: Plan, contents: seq<seq<Octet>>)
    requires w.Valid() && |contents| == MEDIA && plan.id in w.system.disk.generations && plan.parent != Some(plan.id)
    requires var tree := w.system.disk.generations[plan.id]; Carries(tree, contents, MEDIA) && HasManifest(tree, plan)
    ensures Accepts(w.system.disk, plan.id) <==>
      Suits(plan.provenance, plan.parent) && forall k :: 0 <= k < MEDIA ==> contents[k] != []
  {
    var tree := w.system.disk.generations[plan.id];
    assert Whole(tree, plan.id);
    assert forall k :: 0 <= k < MEDIA ==> plan.media[k] == IdentityOf(contents[k]);
    hide Inv, Reach, Legal, Sheltered;
    if Verified(tree, plan.id) {
      forall k | 0 <= k < MEDIA ensures contents[k] != [] {
        assert plan.media[k].size >= 1;
      }
    }
  }

  // ----- which operations raise -----

  const ACQUIRE_STEPS := 3   // the directory, the owner record, the flushes
  const POINT_STEPS := 5
  const SEAL_STEPS := 6
  const COPY_STEPS := 2 * MEDIA
  const BUILD_STEPS := 2 + COPY_STEPS + SEAL_STEPS + 2
  const PUBLISH_STEPS := BUILD_STEPS + POINT_STEPS + 1

  /** None of the next `n` operations raises. */
  predicate Calm(faults: seq<bool>, n: nat) { forall i :: 0 <= i < n && i < |faults| ==> !faults[i] }

  predicate Faultless(faults: seq<bool>) { forall i :: 0 <= i < |faults| ==> !faults[i] }

  function Drop(faults: seq<bool>, n: nat): seq<bool> { if n <= |faults| then faults[n..] else [] }

  lemma FaultsInTurn(faults: seq<bool>)
    ensures Drop(faults, 0) == faults && Calm(faults, 0)
    ensures forall n: nat, m: nat :: Drop(Drop(faults, n), m) == Drop(faults, n + m)
    ensures forall n: nat, m: nat :: Calm(Drop(faults, n), m) && Calm(faults, n) <==> Calm(faults, n + m)
    ensures forall n: nat, m: nat :: n <= m && Calm(faults, m) ==> Calm(faults, n)
    ensures forall n: nat :: Faultless(faults) ==> Faultless(Drop(faults, n))
  {
    forall n: nat, m: nat ensures Calm(Drop(faults, n), m) && Calm(faults, n) <==> Calm(faults, n + m) {
      if Calm(faults, n + m) {
        forall i | 0 <= i < m && i < |Drop(faults, n)| ensures !Drop(faults, n)[i] {
          assert !faults[n + i];
        }
      }
      if Calm(Drop(faults, n), m) && Calm(faults, n) {
        forall i | 0 <= i < n + m && i < |faults| ensures !faults[i] {
          if i >= n { assert Drop(faults, n)[i - n] == faults[i]; }
        }
      }
    }
  }

  lemma NextFaults(faults: seq<bool>, n: nat, m: nat, total: nat)
    ensures Drop(Drop(faults, n), m) == Drop(faults, n + m)
    ensures Calm(Drop(faults, n), m) && Calm(faults, n) <==> Calm(faults, n + m)
    ensures n + m <= total && Calm(faults, total) ==> Calm(faults, n + m)
    ensures Faultless(faults) ==> Faultless(Drop(faults, n + m))
  {
    FaultsInTurn(faults);
  }

  lemma NextFault(faults: seq<bool>, n: nat, total: nat)
    ensures Drop(Drop(faults, n), 1) == Drop(faults, n + 1) && Drop(faults, 0) == faults && Calm(faults, 0)
    ensures Calm(Drop(faults, n), 1) && Calm(faults, n) <==> Calm(faults, n + 1)
    ensures n + 1 <= total && Calm(faults, total) ==> Calm(faults, n + 1)
    ensures Faultless(faults) ==> Faultless(Drop(faults, n + 1))
  {
    NoFault(faults);
    NextFaults(faults, n, 1, total);
  }

  lemma CalmLess(faults: seq<bool>, n: nat, total: nat)
    ensures n <= total && Calm(faults, total) ==> Calm(faults, n)
  {
  }

  lemma NoFault(faults: seq<bool>)
    ensures Drop(faults, 0) == faults && Calm(faults, 0)
  {
  }

  lemma FaultlessIsCalm(faults: seq<bool>, n: nat)
    ensures Faultless(faults) ==> Calm(faults, n)
  {
  }

  predicate By(e: Event, p: Process) {
    match e
    case Recover => false
    case LosePower(_) => false
    case _ => e.p == p
  }

  lemma RootBuries(s: System, me: Process, token: Name)
    requires Inv(s) && PhaseOf(s, me).Settling? && token in s.spent
    ensures Buried(After(s, FlushRoot(me)), token)
  {
    hide SavesInv, PointerInv, JobsInv;
    FlushBuries(s, FlushRoot(me), token);
  }

  lemma StaysBuried(s: System, e: Event)
    requires Inv(s) && Allowed(s, e)
    ensures forall token :: Buried(s, token) ==> Buried(After(s, e), token)
  {
    forall token | Buried(s, token) ensures Buried(After(s, e), token) {
      hide SavesInv, PointerInv, JobsInv;
      BuriedStep(s, e, token);
    }
  }

  lemma OthersKeepOut(s: System, e: Event, me: Process)
    requires Inv(s) && !PhaseOf(s, me).Dead? && Allowed(s, e) && !e.LosePower? && !By(e, me)
    ensures PhaseOf(After(s, e), me) == PhaseOf(s, me) && s.spent <= After(s, e).spent
    ensures Claims(PhaseOf(s, me)) ==> Alike(s.disk, After(s, e).disk) && After(s, e).spent == s.spent
  {
    hide SavesInv, PointerInv, JobsInv;
    if !e.Recover? && Claims(PhaseOf(s, e.p)) && Claims(PhaseOf(s, me)) {
      OnlyHolder(s, e.p, me);
    }
  }
}
