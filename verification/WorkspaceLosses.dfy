/**
 Two runs that keep the client protocol and still lose the current save to a power failure:
 the seed's publish never flushes the entry of `generations`, and select never flushes the
 entry of the generation it chooses.
 */
module WorkspaceLosses {
  import opened Wrappers
  import opened Octets
  import opened GuestDisk
  import opened WorkspaceProtocol

  const BYTE: seq<Octet> := [1]

  /** Nothing but nonempty media and a sound manifest. */
  predicate Good(tree: Tree) {
    && (forall k :: k in tree.files ==> |tree.files[k].value| >= 1)
    && (tree.manifest.Some? ==> SoundProvenance(tree.manifest.value.value))
  }

  function TreeOf(disk: Disk, id: Name): Tree {
    if id in disk.generations then disk.generations[id]
    else if id in disk.pending then disk.pending[id]
    else Tree(map[], None, {})
  }

  /** `p` is building a good generation; nothing written so far concerns the pointer. */
  predicate At(s: System, p: Process, token: Name, plan: Plan, stage: Stage) {
    && PhaseOf(s, p) == Holding(token, Building(plan, stage))
    && SoundProvenance(Manifest(plan.id, plan.parent, plan.provenance, plan.media)) && Good(TreeOf(s.disk, plan.id))
  }

  predicate SameRoot(a: System, b: System, id: Name) {
    && a.disk.current == b.disk.current && a.disk.possible == b.disk.possible && a.disk.settled == b.disk.settled
    && b.disk.generationsDurable == a.disk.generationsDurable && a.disk.lease == b.disk.lease && a.spent == b.spent
    && a.procs.Keys == b.procs.Keys && a.ages == b.ages && a.clock == b.clock
  }

  function Left(stage: Stage): nat {
    match stage
    case MakeGenerations => 40
    case MakePending => 39
    case Copy(k) => if k < 10 then 38 - 2 * k else 0
    case Flush(k) => if k < 10 then 37 - 2 * k else 0
    case WriteManifest => 10
    case FlushManifest => 9
    case Sync(k) => if k < 5 then 8 - k else 0
    case Rename => 1
    case SyncGenerations => 0
  }

  predicate InRange(stage: Stage) {
    match stage
    case Copy(k) => k < MEDIA
    case Flush(k) => k < MEDIA
    case Sync(k) => k < |SYNC_ORDER|
    case _ => true
  }

  /** Nobody selects. */
  predicate NoSelects(events: seq<Event>) { forall e :: e in events ==> !e.Select? }

  lemma Extend(events: seq<Event>, e: Event)
    requires Legal(events) && Powered(events) && Allowed(Reach(events), e)
    ensures Legal(events + [e]) && Reach(events + [e]) == After(Reach(events), e)
    ensures !e.LosePower? ==> Powered(events + [e])
  {
    assert (events + [e])[..|events|] == events;
  }

  lemma OneMore(s: System, p: Process, token: Name, plan: Plan, stage: Stage)
    requires At(s, p, token, plan, stage) && !stage.SyncGenerations? && JobOk(s.disk, s.ages, p, Building(plan, stage))
    requires s.disk.generationsDurable ==> s.disk.generationsExist
    ensures var t := After(s, Proceed(p, BYTE));
      At(t, p, token, Noted(s.disk, plan, stage), NextStage(stage)) && SameRoot(s, t, plan.id)
  {
    hide FilledOk;
  }

  lemma Ready(s: System, p: Process, token: Name, plan: Plan, stage: Stage)
    requires Inv(s) && At(s, p, token, plan, stage)
    ensures JobOk(s.disk, s.ages, p, Building(plan, stage)) && Allowed(s, Proceed(p, BYTE))
    ensures s.disk.generationsDurable ==> s.disk.generationsExist
  {
    hide JobOk, Good;
  }

  lemma BuildOne(events: seq<Event>, p: Process, token: Name, plan: Plan, stage: Stage)
    requires Legal(events) && Powered(events) && At(Reach(events), p, token, plan, stage) && !stage.SyncGenerations?
    ensures var (more, noted) := (events + [Proceed(p, BYTE)], Noted(Reach(events).disk, plan, stage));
      && Legal(more) && Powered(more) && At(Reach(more), p, token, noted, NextStage(stage))
      && SameRoot(Reach(events), Reach(more), plan.id) && noted.id == plan.id && noted.parent == plan.parent
  {
    hide Inv, At, After, Allowed, JobOk, Legal, Powered, Reach, SameRoot;
    ProcessSafety(events);
    Ready(Reach(events), p, token, plan, stage);
    OneMore(Reach(events), p, token, plan, stage);
    Extend(events, Proceed(p, BYTE));
  }

  /** The publish can go on until the generation is renamed into place. */
  lemma {:induction false} BuildOn(events: seq<Event>, p: Process, token: Name, plan: Plan, stage: Stage)
    returns (more: seq<Event>, built: Plan)
    requires Legal(events) && Powered(events) && At(Reach(events), p, token, plan, stage) && InRange(stage)
    ensures NoSelects(events) ==> NoSelects(more)
    ensures Legal(more) && Powered(more) && At(Reach(more), p, token, built, SyncGenerations)
    ensures SameRoot(Reach(events), Reach(more), plan.id) && built.id == plan.id && built.parent == plan.parent
    decreases Left(stage)
  {
    hide At, Legal, Powered, Reach, Noted;
    more, built := events, plan;
    if !stage.SyncGenerations? {
      BuildOne(events, p, token, plan, stage);
      more, built := BuildOn(events + [Proceed(p, BYTE)], p, token, Noted(Reach(events).disk, plan, stage),
                             NextStage(stage));
    }
  }

  lemma BuiltIsAccepted(s: System, p: Process, token: Name, plan: Plan)
    requires Inv(s) && At(s, p, token, plan, SyncGenerations)
    ensures Accepts(s.disk, plan.id)
  {
    assert JobOk(s.disk, s.ages, p, Building(plan, SyncGenerations));
    assert Whole(s.disk.generations[plan.id], plan.id);
  }

  lemma Unanchored(s: System, e: Event)
    requires Inv(s) && AtReplace(s, e) && !Careful(s, e)
    ensures Allowed(s, e) && !e.LosePower? && !Anchored(After(s, e).disk)
  {
    hide SavesInv, NamesInv, LeaseInv, PointerInv, Verified;
    assert Some(Pointer.Names(PhaseOf(s, e.p).job.id)) in After(s, e).disk.possible;
  }

  /** Whatever process is about to replace the pointer by a generation that is not flushed:
      after that one step the power may fail and leave a pointer to nothing. */
  lemma Breaks(events: seq<Event>, p: Process) returns (after: Disk)
    requires Legal(events) && Powered(events) && AtReplace(Reach(events), Proceed(p, BYTE))
    requires !Careful(Reach(events), Proceed(p, BYTE))
    ensures var bad := events + [Proceed(p, BYTE)] + [LosePower(after)]; Legal(bad) && !Safe(Reach(bad).disk)
  {
    hide Inv, After, Allowed, Legal, Powered, Reach, AtReplace, Careful, Anchored, PowerLoss, Safe;
    var e := Proceed(p, BYTE);
    ProcessSafety(events);
    Unanchored(Reach(events), e);
    Extend(events, e);
    var next := events + [e];
    ProcessSafety(next);
    if PowerSafe(Reach(next).disk) {
      SafeFromInv(Reach(next));
    }
    after :| PowerLoss(Reach(next).disk, after) && !Safe(after);
    AllowedLoss(Reach(next), after);
    Extend(next, LosePower(after));
  }

  lemma SafeFromInv(s: System)
    requires Inv(s) && PowerSafe(s.disk)
    ensures Anchored(s.disk)
  {
    SafeIsAnchored(s.disk, s.ages);
  }

  lemma AllowedLoss(s: System, after: Disk)
    requires PowerLoss(s.disk, after)
    ensures Allowed(s, LosePower(after)) && After(s, LosePower(after)).disk == after
  {
  }

  predicate PointingAt(s: System, p: Process, token: Name, id: Name, origin: Option<Plan>, step: PointerStage) {
    PhaseOf(s, p) == Holding(token, Pointing(id, origin, step))
  }

  function NextStep(step: PointerStage): PointerStage {
    match step
    case Verify => WriteTemporary
    case WriteTemporary => FlushTemporary
    case FlushTemporary => Replace
    case Replace => SyncRoot
    case SyncRoot => SyncRoot
  }

  lemma PointOne(events: seq<Event>, p: Process, token: Name, id: Name, origin: Option<Plan>, step: PointerStage)
    requires Legal(events) && Powered(events) && PointingAt(Reach(events), p, token, id, origin, step)
    requires !step.Replace? && !step.SyncRoot? && (step.Verify? ==> Accepts(Reach(events).disk, id))
    ensures var more := events + [Proceed(p, BYTE)];
      && Legal(more) && Powered(more) && PointingAt(Reach(more), p, token, id, origin, NextStep(step))
      && SameRoot(Reach(events), Reach(more), id)
  {
    hide Legal, Powered, Reach, Verified;
    Extend(events, Proceed(p, BYTE));
  }

  /** A select of an acceptable generation goes on until the pointer is about to be replaced. */
  lemma PointOn(events: seq<Event>, p: Process, token: Name, id: Name, origin: Option<Plan>) returns (more: seq<Event>)
    requires Legal(events) && Powered(events) && PointingAt(Reach(events), p, token, id, origin, Verify)
    requires Accepts(Reach(events).disk, id)
    ensures NoSelects(events) ==> NoSelects(more)
    ensures Legal(more) && Powered(more) && PointingAt(Reach(more), p, token, id, origin, Replace)
    ensures SameRoot(Reach(events), Reach(more), id)
  {
    hide Legal, Powered, Reach, Accepts, PointingAt;
    var e := Proceed(p, BYTE);
    PointOne(events, p, token, id, origin, Verify);
    PointOne(events + [e], p, token, id, origin, WriteTemporary);
    PointOne(events + [e] + [e], p, token, id, origin, FlushTemporary);
    more := events + [e] + [e] + [e];
  }

  /** Process `p` takes the free lease and starts publishing over the current save. */
  lemma StartPublish(events: seq<Event>, p: Process, token: Name, parent: Option<Name>, id: Name)
    returns (more: seq<Event>)
    requires Legal(events) && Powered(events)
    requires PhaseOf(Reach(events), p).Idle? && Reach(events).disk.lease.None?
    requires token !in Reach(events).ages && id !in Reach(events).ages && id != token && parent != Some(id)
    requires MayPublish(Reach(events).disk, parent)
    ensures NoSelects(events) ==> NoSelects(more)
    ensures Legal(more) && Powered(more)
    ensures var (s, t) := (Reach(events), Reach(more));
      && At(t, p, token, Plan(id, parent, Sources(parent), []), MakeGenerations)
      && t.disk == Taken(s.disk, p, token)
      && t.ages.Keys == s.ages.Keys + {token, id} && t.procs.Keys == s.procs.Keys + {p} && t.spent == s.spent
  {
    hide Legal, Powered, Reach, Inv, At;
    var s := Reach(events);
    ProcessSafety(events);
    FreshIsNew(s, id);
    TakeLease(events, p, token);
    more := events + [Acquire(p, token)] + [WriteOwner(p)] + [FlushOwner(p)];
    var e := Publish(p, parent, Sources(parent), id);
    StartAt(Reach(more), p, token, parent, id);
    Extend(more, e);
    more := more + [e];
  }

  lemma FreshIsNew(s: System, id: Name)
    requires Inv(s) && id !in s.ages
    ensures id !in s.disk.generations && id !in s.disk.pending
  {
  }

  lemma StartAt(s: System, p: Process, token: Name, parent: Option<Name>, id: Name)
    requires PhaseOf(s, p) == Holding(token, Resting) && MayPublish(s.disk, parent) && parent != Some(id)
    requires id !in s.disk.generations && id !in s.disk.pending && id !in s.ages
    ensures var t := After(s, Publish(p, parent, Sources(parent), id));
      && At(t, p, token, Plan(id, parent, Sources(parent), []), MakeGenerations) && t.disk == s.disk
      && t.ages.Keys == s.ages.Keys + {id} && t.procs.Keys == s.procs.Keys && t.spent == s.spent
  {
  }

  /** Process `p` takes the free lease and selects, up to the replacement of the pointer. */
  lemma StartSelect(events: seq<Event>, p: Process, token: Name, id: Name) returns (more: seq<Event>)
    requires Legal(events) && Powered(events)
    requires PhaseOf(Reach(events), p).Idle? && Reach(events).disk.lease.None? && token !in Reach(events).ages
    requires Accepts(Reach(events).disk, id)
    ensures Legal(more) && Powered(more) && PointingAt(Reach(more), p, token, id, None, Replace)
    ensures var (s, t) := (Reach(events), Reach(more));
      && t.disk.settled == s.disk.settled && t.disk.generationsDurable == s.disk.generationsExist
      && t.ages.Keys == s.ages.Keys + {token}
  {
    hide Legal, Powered, Reach, Verified;
    TakeLease(events, p, token);
    more := events + [Acquire(p, token)] + [WriteOwner(p)] + [FlushOwner(p)];
    Extend(more, Event.Select(p, id));
    more := PointOn(more + [Event.Select(p, id)], p, token, id, None);
  }

  /** What the laboratory passes for a seed and for the save of a run. */
  function Sources(parent: Option<Name>): Provenance {
    if parent.Some? then Provenance(Some(true), Some(true)) else Provenance(None, None)
  }

  /** The disk once `p` has the lease, flushed. */
  function Taken(disk: Disk, p: Process, token: Name): Disk {
    var lease := Lease(p, Some(token));
    RootFlushed(disk).(lease := Some(lease), leases := {Some(lease)}, records := {lease})
  }

  lemma TakeLease(events: seq<Event>, p: Process, token: Name)
    requires Legal(events) && Powered(events)
    requires PhaseOf(Reach(events), p).Idle? && Reach(events).disk.lease.None? && token !in Reach(events).ages
    ensures var (s, more) := (Reach(events), events + [Acquire(p, token)] + [WriteOwner(p)] + [FlushOwner(p)]);
      && Legal(more) && Powered(more)
      && Reach(more).disk == Taken(s.disk, p, token)
      && Reach(more).ages == s.ages[token := s.clock] && Reach(more).procs == s.procs[p := Holding(token, Resting)]
      && Reach(more).spent == s.spent
  {
    hide Legal, Powered, Reach;
    Extend(events, Acquire(p, token));
    Extend(events + [Acquire(p, token)], WriteOwner(p));
    Extend(events + [Acquire(p, token)] + [WriteOwner(p)], FlushOwner(p));
  }

  /** A seed's publish, cut by a power failure between the pointer and the root's flush. */
  lemma SeedCanBeLost()
    ensures exists events, after :: LostBy(events, 0, after) && SeedPublish(Reach(events), 0)
  {
    var events := SeedAtReplace();
    var after := Breaks(events, 0);
    assert LostBy(events, 0, after) && SeedPublish(Reach(events), 0);
  }

  /** A legal run in which `p` replaces the pointer, and a power failure that then leaves a
      pointer to nothing. */
  ghost predicate LostBy(events: seq<Event>, p: Process, after: Disk) {
    && Legal(events) && AtReplace(Reach(events), Proceed(p, BYTE))
    && var bad := events + [Proceed(p, BYTE)] + [LosePower(after)]; Legal(bad) && !Safe(Reach(bad).disk)
  }

  predicate SeedPublish(s: System, p: Process) {
    PhaseOf(s, p).Holding? && PhaseOf(s, p).job.Pointing? && PhaseOf(s, p).job.origin.Some?
    && PhaseOf(s, p).job.origin.value.parent.None?
  }

  /** Process 0 about to point a new workspace at its seed. */
  lemma SeedAtReplace() returns (events: seq<Event>)
    ensures NoSelects(events)
    ensures Legal(events) && Powered(events)
    ensures var s := Reach(events);
      && (exists origin :: PointingAt(s, 0, 0, 1, origin, Replace)) && SeedPublish(s, 0)
      && !s.disk.generationsDurable && s.ages.Keys == {0, 1} && s.procs.Keys == {0} && s.spent == {}
  {
    events := StartPublish([], 0, 0, None, 1);
    var built;
    events, built := BuildOn(events, 0, 0, Plan(1, None, Sources(None), []), MakeGenerations);
    SyncSave(events, 0, 0, built);
    events := PointOn(events + [Proceed(0, BYTE)], 0, 0, 1, Some(built));
  }

  lemma SyncSave(events: seq<Event>, p: Process, token: Name, plan: Plan)
    requires Legal(events) && Powered(events) && At(Reach(events), p, token, plan, SyncGenerations)
    ensures var more := events + [Proceed(p, BYTE)];
      && Legal(more) && Powered(more) && PointingAt(Reach(more), p, token, plan.id, Some(plan), Verify)
      && Accepts(Reach(more).disk, plan.id)
      && Reach(more).disk == Reach(events).disk.(settled := Reach(events).disk.generations.Keys)
      && Reach(more).ages == Reach(events).ages && Reach(more).procs.Keys == Reach(events).procs.Keys
      && Reach(more).spent == Reach(events).spent
  {
    ProcessSafety(events);
    BuiltIsAccepted(Reach(events), p, token, plan);
    hide Legal, Powered, Reach, Inv, Verified;
    Extend(events, Proceed(p, BYTE));
  }

  /** The seed complete: the pointer replaced and flushed, the temporaries gone. */
  lemma EndPublish(events: seq<Event>, p: Process, token: Name, id: Name, origin: Option<Plan>)
    returns (more: seq<Event>)
    requires Legal(events) && Powered(events) && PointingAt(Reach(events), p, token, id, origin, Replace)
    ensures NoSelects(events) ==> NoSelects(more)
    ensures Legal(more) && Powered(more) && PhaseOf(Reach(more), p) == Holding(token, Resting)
    ensures var (s, t) := (Reach(events), Reach(more));
      && t.disk.current == Some(Pointer.Names(id)) && t.disk.generationsDurable == t.disk.generationsExist
      && t.disk.settled == s.disk.settled && t.disk.lease == s.disk.lease && t.disk.generations == s.disk.generations
      && t.disk.generationsExist == s.disk.generationsExist
      && t.ages == s.ages && t.procs.Keys == s.procs.Keys && t.spent == s.spent
  {
    var e := Proceed(p, BYTE);
    assert JobOk(Reach(events).disk, Reach(events).ages, p, Pointing(id, origin, Replace)) by { ProcessSafety(events); }
    hide Legal, Powered, Reach, Allowed, After, Accepts, Saved, PlanOk;
    var (s, a, b) := (Reach(events), events + [e], events + [e] + [e]);
    LastSteps(s, p, token, id, origin);
    Extend(events, e);
    Extend(a, e);
    Extend(b, e);
    more := b + [e];
  }

  /** Replace, flush the root, clean up. */
  lemma LastSteps(s: System, p: Process, token: Name, id: Name, origin: Option<Plan>)
    requires PointingAt(s, p, token, id, origin, Replace) && JobOk(s.disk, s.ages, p, Pointing(id, origin, Replace))
    ensures var e := Proceed(p, BYTE);
      var (t, u, v) := (After(s, e), After(After(s, e), e), After(After(After(s, e), e), e));
      && Allowed(s, e) && Allowed(t, e) && Allowed(u, e) && PhaseOf(v, p) == Holding(token, Resting)
      && v.disk.current == Some(Pointer.Names(id)) && v.disk.generationsDurable == v.disk.generationsExist
      && v.disk.settled == s.disk.settled && v.disk.lease == s.disk.lease && v.disk.generations == s.disk.generations
      && v.disk.generationsExist == s.disk.generationsExist
      && v.ages == s.ages && v.procs.Keys == s.procs.Keys && v.spent == s.spent
  {
    hide Accepts, Saved, PlanOk;
    var e := Proceed(p, BYTE);
    var t := After(s, e);
    assert t.procs[p] == Holding(token, Pointing(id, origin, SyncRoot)) && t.disk.current == Some(Pointer.Names(id));
    var u := After(t, e);
    assert u.procs[p] == Holding(token, Ended(origin)) && u.disk == RootFlushed(t.disk);
  }

  /** A seed saved without accident by process 0, which still holds the lease. */
  lemma SeedRun() returns (events: seq<Event>)
    ensures NoSelects(events)
    ensures Legal(events) && Powered(events)
    ensures var s := Reach(events);
      && PhaseOf(s, 0) == Holding(0, Resting) && s.disk.current == Some(Pointer.Names(1)) && s.procs.Keys == {0}
      && s.disk.generationsDurable && s.ages.Keys == {0, 1} && s.disk.settled <= {0, 1} && s.spent == {}
  {
    events := SeedAtReplace();
    var s := Reach(events);
    var origin :| PointingAt(s, 0, 0, 1, origin, Replace);
    ProcessSafety(events);
    assert JobOk(s.disk, s.ages, 0, Pointing(1, origin, Replace));
    hide Legal, Powered, Reach, Whole, OlderParent, JobOk;
    events := EndPublish(events, 0, 0, 1, origin);
  }

  lemma {:induction false} WithoutSelects(events: seq<Event>)
    requires Legal(events) && Powered(events) && NoSelects(events)
    ensures SettledChoices(events) && RootedLosses(events)
  {
    hide Allowed, After, Reach, Rooted, ChoosesSettled;
    if events != [] {
      WithoutSelects(events[..|events| - 1]);
      NotASelect(Reach(events[..|events| - 1]), events[|events| - 1]);
    }
  }

  lemma NotASelect(s: System, e: Event)
    requires !e.Select?
    ensures ChoosesSettled(s, e)
  {
  }

  /** An ordinary seed puts a workspace beyond power failures: after this run, with or without
      one at any step of whatever processes do next, the pointer is safe and stays so. */
  lemma SeedThenAnything() returns (seed: seq<Event>)
    ensures Legal(seed) && Reach(seed).disk.current == Some(Pointer.Names(1))
    ensures forall more ::
      Legal(seed + more) && SettledChoices(seed + more) ==>
        Inv(Reach(seed + more)) && Safe(Reach(seed + more).disk) && PowerSafe(Reach(seed + more).disk)
  {
    seed := SeedRun();
    WithoutSelects(seed);
    hide Legal, Inv, SettledChoices, RootedLosses, Safe, PowerSafe, Reach;
    forall more | Legal(seed + more) && SettledChoices(seed + more)
      ensures Inv(Reach(seed + more)) && Safe(Reach(seed + more).disk) && PowerSafe(Reach(seed + more).disk)
    {
      SeededChoices(seed, more);
    }
  }

  /** Process 0 has died between renaming its second save into place and flushing the entry. */
  lemma InterruptedRun() returns (events: seq<Event>)
    ensures Legal(events) && Powered(events)
    ensures var s := Reach(events);
      && s.procs.Keys == {0} && s.procs[0] == Dead(false) && s.disk.lease.None?
      && Accepts(s.disk, 2) && 2 !in s.disk.settled && s.disk.generationsExist && s.ages.Keys == {0, 1, 2}
  {
    hide Legal, Powered, Reach, After, Allowed, Verified, At, Good;
    events := SeedRun();
    PublishAgain(events, 0, 0, 1, 2);
    var plan := Plan(2, Some(1), Sources(Some(1)), []);
    events, plan := BuildOn(events + [Publish(0, Some(1), Sources(Some(1)), 2)], 0, 0, plan, MakeGenerations);
    events := Abandon(events, 0, 0, plan);
  }

  /** The holder of the lease starts publishing over the current save. */
  lemma PublishAgain(events: seq<Event>, p: Process, token: Name, parent: Name, id: Name)
    requires Legal(events) && Powered(events) && PhaseOf(Reach(events), p) == Holding(token, Resting)
    requires Reach(events).disk.current == Some(Pointer.Names(parent)) && parent != id && id !in Reach(events).ages
    ensures var more := events + [Publish(p, Some(parent), Sources(Some(parent)), id)];
      && Legal(more) && Powered(more)
      && At(Reach(more), p, token, Plan(id, Some(parent), Sources(Some(parent)), []), MakeGenerations)
      && Reach(more).disk == Reach(events).disk && Reach(more).ages.Keys == Reach(events).ages.Keys + {id}
      && Reach(more).procs.Keys == Reach(events).procs.Keys
  {
    ProcessSafety(events);
    FreshIsNew(Reach(events), id);
    hide Legal, Powered, Reach, Inv, At;
    StartAt(Reach(events), p, token, Some(parent), id);
    Extend(events, Publish(p, Some(parent), Sources(Some(parent)), id));
  }

  /** The owner dies and the operator recovers the lease. */
  lemma Abandon(events: seq<Event>, p: Process, token: Name, plan: Plan) returns (more: seq<Event>)
    requires Legal(events) && Powered(events) && At(Reach(events), p, token, plan, SyncGenerations)
    requires Reach(events).procs.Keys == {p}
    ensures Legal(more) && Powered(more)
    ensures var (s, t) := (Reach(events), Reach(more));
      && t.procs.Keys == {p} && t.procs[p] == Dead(false) && t.disk.lease.None?
      && Accepts(t.disk, plan.id) && t.disk.settled == s.disk.settled && t.ages == s.ages
      && t.disk.generationsExist
  {
    ProcessSafety(events);
    BuiltIsAccepted(Reach(events), p, token, plan);
    hide Legal, Powered, Reach, Verified, Inv, Good;
    Extend(events, Die(p));
    more := events + [Die(p)];
    Extend(more, Recover);
    more := more + [Recover];
  }

  /** On a flushed workspace, process 1 holds the lease and is about to point at a verified save
      whose publisher died before flushing its entry. */
  lemma RestoreAtReplace() returns (events: seq<Event>)
    ensures Legal(events) && Powered(events) && PointingAt(Reach(events), 1, 3, 2, None, Replace)
    ensures var s := Reach(events);
      2 !in s.disk.settled && s.disk.generationsDurable && s.disk.generationsExist && s.ages.Keys == {0, 1, 2, 3}
  {
    hide Legal, Powered, Reach, Accepts, PointingAt;
    events := InterruptedRun();
    events := StartSelect(events, 1, 3, 2);
    ProcessSafety(events);
    DurableExists(Reach(events));
  }

  lemma DurableExists(s: System)
    requires Inv(s) && s.disk.generationsDurable
    ensures s.disk.generationsExist
  {
  }

  /** A rollback, cut by a power failure. */
  lemma RestoreCanBeLost()
    ensures exists events, after ::
      LostBy(events, 1, after) && PointingAt(Reach(events), 1, 3, 2, None, Replace)
        && Reach(events).disk.generationsDurable
  {
    var events := RestoreAtReplace();
    hide Legal, Powered, Reach, Verified;
    var after := Breaks(events, 1);
    assert LostBy(events, 1, after);
  }

  // ----- a save parted from its parent -----

  /** Process 1 has pointed at the unflushed save of process 0 and published over it, and has
      not yet flushed the entry of its own. */
  lemma OrphanRun() returns (events: seq<Event>, plan: Plan)
    ensures Legal(events) && Powered(events) && At(Reach(events), 1, 3, plan, SyncGenerations)
    ensures plan.id == 4 && plan.parent == Some(2) && 2 !in Reach(events).disk.settled
    ensures Reach(events).disk.generationsDurable
  {
    hide Legal, Powered, Reach, After, Allowed, Verified, At, Good;
    events := RestoreAtReplace();
    events := EndPublish(events, 1, 3, 2, None);
    PublishAgain(events, 1, 3, 2, 4);
    plan := Plan(4, Some(2), Sources(Some(2)), []);
    events, plan := BuildOn(events + [Publish(1, Some(2), Sources(Some(2)), 4)], 1, 3, plan, MakeGenerations);
  }

  lemma BuiltIsSaved(s: System, p: Process, token: Name, plan: Plan)
    requires Inv(s) && At(s, p, token, plan, SyncGenerations)
    ensures plan.id in s.disk.generations && ParentOf(s.disk.generations[plan.id]) == plan.parent
  {
    assert JobOk(s.disk, s.ages, p, Building(plan, SyncGenerations));
  }

  /** A save whose parent is not published. */
  predicate Orphan(disk: Disk, id: Name) {
    && id in disk.generations && ParentOf(disk.generations[id]).Some?
    && ParentOf(disk.generations[id]).value !in disk.generations
  }

  /** A legal run after which a save's recorded parent is gone: the child was renamed while its
      parent's entry was not flushed, and the power failed. */
  lemma ChainCanBreak()
    ensures exists events, after ::
      && Legal(events) && Powered(events) && !ParentsSettled(Reach(events).disk)
      && Legal(events + [LosePower(after)]) && Orphan(Reach(events + [LosePower(after)]).disk, 4)
  {
    hide *;
    var events, plan := OrphanRun();
    var after := OrphanedRun(events, plan);
  }

  lemma OrphanedRun(events: seq<Event>, plan: Plan) returns (after: Disk)
    requires Legal(events) && Powered(events) && At(Reach(events), 1, 3, plan, SyncGenerations)
    requires plan.id == 4 && plan.parent == Some(2) && 2 !in Reach(events).disk.settled
    requires Reach(events).disk.generationsDurable
    ensures !ParentsSettled(Reach(events).disk)
    ensures Legal(events + [LosePower(after)]) && Orphan(Reach(events + [LosePower(after)]).disk, 4)
  {
    var s := Reach(events);
    ProcessSafety(events);
    BuiltIsSaved(s, 1, 3, plan);
    LossInputs(s);
    hide Legal, Powered, Reach, At, PowerLoss, Inv, SavesInv, PointerInv, LeaseSound;
    after := Orphaned(s.disk, s.ages, 4);
    AllowedLoss(s, after);
    Extend(events, LosePower(after));
  }

  lemma LossInputs(s: System)
    requires Inv(s)
    ensures SavesInv(s.disk, s.ages) && PointerInv(s.disk) && LeaseSound(s.disk)
  {
  }

  // ----- an ended lease -----

  lemma LeasedRun() returns (events: seq<Event>)
    ensures Legal(events) && Powered(events) && PhaseOf(Reach(events), 0) == Holding(0, Resting)
  {
    TakeLease([], 0, 0);
    events := [] + [Acquire(0, 0)] + [WriteOwner(0)] + [FlushOwner(0)];
  }

  /** Process 0 has released its lease and not yet flushed the root. */
  lemma ReleasedRun() returns (events: seq<Event>)
    ensures Legal(events) && Powered(events)
    ensures var s := Reach(events); PhaseOf(s, 0).Settling? && 0 in s.spent && s.disk.lease.None? && !Buried(s, 0)
  {
    hide Legal, Powered, Reach, Buried, OwnerInv, After, Allowed;
    events := LeasedRun();
    var (release, owner, remove) := (Event.Release(0, 0), RemoveOwner(0), RemoveLease(0));
    OwnersAlways(events);
    LastRemovals(Reach(events), 0, 0);
    Extend(events, release);
    Extend(events + [release], owner);
    Extend(events + [release] + [owner], remove);
    events := events + [release] + [owner] + [remove];
  }

  lemma LastRemovals(s: System, p: Process, token: Name)
    requires OwnerInv(s) && PhaseOf(s, p) == Holding(token, Resting)
    ensures var a := After(s, Release(p, token));
      var b := After(a, RemoveOwner(p));
      var c := After(b, RemoveLease(p));
      && Allowed(s, Release(p, token)) && Allowed(a, RemoveOwner(p)) && Allowed(b, RemoveLease(p))
      && PhaseOf(c, p).Settling? && token in c.spent && c.disk.lease.None? && !Buried(c, token)
  {
    var a := After(s, Release(p, token));
    assert a.procs[p] == Releasing(token) && a.disk == s.disk;
    var b := After(a, RemoveOwner(p));
    assert b.procs[p] == Leaving(token, true);
    OwnerStep(s, Release(p, token));
    OwnerStep(a, RemoveOwner(p));
    hide OwnerInv, Buried;
    RemovedCanReturn(b, p);
  }

  /** The release is over but for the last flush, its token is spent; the power fails, the lease
      is back, and a release with the old token by anybody takes it away. */
  lemma EndedTokenReturns()
    ensures exists events, after ::
      var (s, t) := (Reach(events), Reach(events + [LosePower(after)]));
      && Legal(events + [LosePower(after)]) && Powered(events)
      && PhaseOf(s, 0).Settling? && 0 in s.spent && s.disk.lease.None?
      && OwnedBy(t.disk.lease, 0) && After(t, Release(1, 0)) != t
  {
    var events := ReleasedRun();
    hide Legal, Powered, Reach, Buried, PowerLoss;
    var after := ReturnOf(events, 0);
    Releasable(events, after);
  }

  lemma Releasable(events: seq<Event>, after: Disk)
    requires OwnedBy(Reach(events + [LosePower(after)]).disk.lease, 0)
    ensures var t := Reach(events + [LosePower(after)]); After(t, Release(1, 0)) != t
  {
    var bad := events + [LosePower(after)];
    assert bad[..|bad| - 1] == events;
    var t := Reach(bad);
    assert t == After(Reach(events), LosePower(after));
    assert !PhaseOf(t, 1).Releasing?;
    assert PhaseOf(After(t, Release(1, 0)), 1).Releasing?;
  }
}
