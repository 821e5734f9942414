/**
 Publishing, selecting and leasing (ncc/guest_workspace.py) as a machine of atomic steps.
 Any number of processes interleave; each may raise an exception or die between two steps,
 and the power may fail at any time. Only the holder of the lease publishes or selects.
 */
module WorkspaceProtocol {
  import opened Wrappers
  import opened Octets
  import opened Digests
  import opened GuestDisk

  datatype Plan = Plan(id: Name, parent: Option<Name>, provenance: Provenance, media: seq<Identity>)

  datatype Stage =
    | MakeGenerations
    | MakePending
    | Copy(medium: nat)
    | Flush(medium: nat)
    | WriteManifest
    | FlushManifest
    | Sync(directory: nat)
    | Rename
    | SyncGenerations

  datatype PointerStage = Verify | WriteTemporary | FlushTemporary | Replace | SyncRoot

  datatype Job =
    | Resting
    | Building(plan: Plan, stage: Stage)
    | Pointing(id: Name, origin: Option<Plan>, step: PointerStage)   // `origin` is the publish that calls select
    | Unwinding(pending: Option<Name>)   // the `finally` clauses

  datatype Phase =
    | Idle
    | Claiming(token: Name)              // the lease directory is made, its owner record is not
    | Recording(token: Name)             // the owner record is written, the directories are not flushed
    | Holding(token: Name, job: Job)
    | Releasing(token: Name)             // the token matched
    | Leaving(token: Name, flush: bool)  // the owner record is gone
    | Settling                           // the lease is gone, the root is not flushed
    | Dead(claims: bool)

  predicate Claims(phase: Phase) { if phase.Dead? then phase.claims else !phase.Idle? && !phase.Settling? }

  /** `ages` orders the names ever drawn; `spent` are the tokens of leases that are over, and
      after a power loss all names but the token of the lease it left. */
  datatype System = System(disk: Disk, procs: map<Process, Phase>, ages: map<Name, nat>, clock: nat, spent: set<Name>)

  function PhaseOf(s: System, p: Process): Phase { if p in s.procs then s.procs[p] else Idle }

  function Become(s: System, p: Process, phase: Phase): System { s.(procs := s.procs[p := phase]) }

  function Draw(s: System, name: Name): System { s.(ages := s.ages[name := s.clock], clock := s.clock + 1) }

  datatype Event =
    | Acquire(p: Process, token: Name)
    | WriteOwner(p: Process)
    | FlushOwner(p: Process)
    | GiveUp(p: Process)                 // acquire raised: the owner record is removed
    | Release(p: Process, token: Name)
    | RemoveOwner(p: Process)
    | RemoveLease(p: Process)
    | FlushRoot(p: Process)
    | Publish(p: Process, parent: Option<Name>, provenance: Provenance, id: Name)
    | Select(p: Process, id: Name)
    | Proceed(p: Process, content: seq<Octet>)   // the next operation of a publish or select
    | Raise(p: Process)                          // ... raises instead
    | Die(p: Process)
    | Recover                                    // the operator removes a dead process's lease
    | LosePower(after: Disk)

  // ----- the operations of publish and select -----

  const SYNC_ORDER: seq<Directory> := [Images, Pdp11, Host106, Top]

  function NextStage(stage: Stage): Stage
    requires !stage.SyncGenerations?
  {
    match stage
    case MakeGenerations => MakePending
    case MakePending => Copy(0)
    case Copy(k) => Flush(k)
    case Flush(k) => if k + 1 < MEDIA then Copy(k + 1) else WriteManifest
    case WriteManifest => FlushManifest
    case FlushManifest => Sync(0)
    case Sync(k) => if k + 1 < |SYNC_ORDER| then Sync(k + 1) else Rename
    case Rename => SyncGenerations
  }

  /** What one operation of publish does to the files. */
  function Built(disk: Disk, plan: Plan, stage: Stage, content: seq<Octet>): Disk {
    var id := plan.id;
    if stage.MakeGenerations? then
      if disk.generationsExist then disk else disk.(generationsExist := true, generationsDurable := false)
    else if stage.MakePending? then disk.(pending := disk.pending[id := Tree(map[], None, {})])
    else if stage.SyncGenerations? then disk.(settled := disk.generations.Keys)
    else if id !in disk.pending then disk
    else if stage.Rename? then
      disk.(pending := disk.pending - {id}, generations := disk.generations[id := disk.pending[id]])
    else disk.(pending := disk.pending[id := Filled(disk.pending[id], plan, stage, content)])
  }

  /** What one operation of publish does inside the pending directory. */
  function Filled(tree: Tree, plan: Plan, stage: Stage, content: seq<Octet>): Tree {
    match stage
    case Copy(k) => WithFile(tree, k, content)
    case Flush(k) => if k in tree.files then WithFlushed(tree, k) else tree
    case WriteManifest => WithManifest(tree, Manifest(plan.id, plan.parent, plan.provenance, plan.media))
    case FlushManifest => if tree.manifest.Some? then tree.(manifest := Some(tree.manifest.value.(flushed := true)))
                          else tree
    case Sync(k) => if k < |SYNC_ORDER| then tree.(synced := tree.synced + {SYNC_ORDER[k]}) else tree
    case _ => tree
  }

  /** The identity of each copy is taken from the copy, once it is flushed. */
  function Noted(disk: Disk, plan: Plan, stage: Stage): Plan {
    if stage.Flush? && plan.id in disk.pending && stage.medium in disk.pending[plan.id].files
      then plan.(media := plan.media + [IdentityOf(disk.pending[plan.id].files[stage.medium].value)])
    else plan
  }

  function RootFlushed(disk: Disk): Disk {
    disk.(possible := {disk.current}, generationsDurable := disk.generationsExist,
          leases := if disk.lease.None? then {None} else set record | record in disk.records :: Some(record))
  }

  /** os.replace: the new pointer is seen at once, and after a power loss any pointer since
      the last flush may be found; one replaced before its data was flushed may be torn. */
  function Replaced(disk: Disk, file: File<Name>): Disk {
    var named := Some(Pointer.Names(file.value));
    disk.(current := named, possible := disk.possible + {named} + if file.flushed then {} else {Some(Torn)})
  }

  function Ended(plan: Option<Plan>): Job { Unwinding(if plan.Some? then Some(plan.value.id) else None) }

  /** The next operation of the process's publish or select. */
  function Advance(disk: Disk, p: Process, job: Job, content: seq<Octet>): (Disk, Job) {
    match job
    case Resting => (disk, Resting)
    case Building(plan, stage) =>
      (Built(disk, plan, stage, content),
       if stage.SyncGenerations? then Pointing(plan.id, Some(plan), Verify)
       else Building(Noted(disk, plan, stage), NextStage(stage)))
    case Pointing(id, plan, step) =>
      (match step
       case Verify => (disk, if Accepts(disk, id) then Pointing(id, plan, WriteTemporary) else Ended(plan))
       case WriteTemporary =>
         (disk.(temporaries := disk.temporaries[p := File(id, false)]), Pointing(id, plan, FlushTemporary))
       case FlushTemporary =>
         (if p in disk.temporaries
            then disk.(temporaries := disk.temporaries[p := disk.temporaries[p].(flushed := true)]) else disk,
          Pointing(id, plan, Replace))
       case Replace =>
         (if p in disk.temporaries
            then Replaced(disk, disk.temporaries[p]).(temporaries := disk.temporaries - {p}) else disk,
          Pointing(id, plan, SyncRoot))
       case SyncRoot => (RootFlushed(disk), Ended(plan)))
    case Unwinding(pending) =>
      (disk.(temporaries := disk.temporaries - {p},
             pending := if pending.Some? then disk.pending - {pending.value} else disk.pending), Resting)
  }

  /** An exception sends publish and select to their `finally` clauses. */
  function Raised(job: Job): Job {
    match job
    case Building(plan, stage) =>
      if stage.MakeGenerations? || stage.MakePending? then Resting else Unwinding(Some(plan.id))
    case Pointing(_, plan, _) => Ended(plan)
    case _ => Resting
  }

  /** The checks made before anything is written (lines 210-213). */
  predicate MayPublish(disk: Disk, parent: Option<Name>) {
    match parent
    case None => disk.current.None?
    case Some(id) => disk.current == Some(Pointer.Names(id))
  }

  // ----- the machine -----

  predicate Alive(s: System, p: Process) { !PhaseOf(s, p).Dead? }

  /** What the client protocol allows: fresh names, the lease held for publish and select, no
      release with the token of another's standing lease, and recovery of dead owners only. */
  predicate Allowed(s: System, e: Event) {
    match e
    case Acquire(p, token) => PhaseOf(s, p).Idle? && token !in s.ages
    case WriteOwner(p) => PhaseOf(s, p).Claiming?
    case FlushOwner(p) => PhaseOf(s, p).Recording?
    case GiveUp(p) => PhaseOf(s, p).Claiming? || PhaseOf(s, p).Recording?
    case Release(p, token) =>
      Alive(s, p) && (PhaseOf(s, p) == Holding(token, Resting) || !OwnedBy(s.disk.lease, token))
    case RemoveOwner(p) => PhaseOf(s, p).Releasing?
    case RemoveLease(p) => PhaseOf(s, p).Leaving?
    case FlushRoot(p) => PhaseOf(s, p).Settling?
    case Publish(p, _, _, id) =>
      PhaseOf(s, p).Holding? && PhaseOf(s, p).job.Resting? && id !in s.ages
    case Select(p, id) => PhaseOf(s, p).Holding? && PhaseOf(s, p).job.Resting?
    case Proceed(p, _) => PhaseOf(s, p).Holding?
    case Raise(p) => PhaseOf(s, p).Holding?
    case Die(p) => true
    case Recover => forall p :: p in s.procs && Claims(s.procs[p]) ==> s.procs[p].Dead?
    case LosePower(after) => PowerLoss(s.disk, after)
  }

  function Tokens(records: set<Lease>): set<Name> {
    set record | record in records && record.owner.Some? :: record.owner.value
  }

  function After(s: System, e: Event): System {
    match e
    case Acquire(p, token) =>
      if s.disk.lease.Some? then s
      else Become(Draw(s, token).(disk := WithLease(s.disk, Lease(p, None))), p, Claiming(token))
    case WriteOwner(p) =>
      if PhaseOf(s, p).Claiming?
        then Become(s.(disk := WithLease(s.disk, Lease(p, Some(PhaseOf(s, p).token)))), p,
                    Recording(PhaseOf(s, p).token))
      else s
    case FlushOwner(p) =>
      if PhaseOf(s, p).Recording?
        then Become(s.(disk := RootFlushed(LeaseFlushed(s.disk))), p, Holding(PhaseOf(s, p).token, Resting)) else s
    case GiveUp(p) =>
      if PhaseOf(s, p).Claiming? || PhaseOf(s, p).Recording?
        then Become(s.(disk := WithLease(s.disk, Lease(p, None))), p, Leaving(PhaseOf(s, p).token, false)) else s
    case Release(p, token) =>
      if OwnedBy(s.disk.lease, token) then Become(s, p, Releasing(token)) else s
    case RemoveOwner(p) =>
      if PhaseOf(s, p).Releasing?
        then Become(s.(disk := WithLease(s.disk, Lease(p, None))), p, Leaving(PhaseOf(s, p).token, true)) else s
    case RemoveLease(p) =>
      if PhaseOf(s, p).Leaving?
        then Become(s.(disk := WithoutLease(s.disk), spent := s.spent + {PhaseOf(s, p).token}),
                    p, if PhaseOf(s, p).flush then Settling else Idle)
      else s
    case FlushRoot(p) =>
      if PhaseOf(s, p).Settling? then Become(s.(disk := RootFlushed(s.disk)), p, Idle) else s
    case Publish(p, parent, provenance, id) =>
      if PhaseOf(s, p).Holding? && MayPublish(s.disk, parent)
        then Become(Draw(s, id), p,
                    Holding(PhaseOf(s, p).token, Building(Plan(id, parent, provenance, []), MakeGenerations)))
      else s
    case Select(p, id) =>
      if PhaseOf(s, p).Holding?
        then Become(s, p, Holding(PhaseOf(s, p).token, Pointing(id, None, Verify))) else s
    case Proceed(p, content) =>
      if PhaseOf(s, p).Holding? then
        var (disk, job) := Advance(s.disk, p, PhaseOf(s, p).job, content);
        Become(s.(disk := disk), p, Holding(PhaseOf(s, p).token, job))
      else s
    case Raise(p) =>
      if PhaseOf(s, p).Holding?
        then Become(s, p, Holding(PhaseOf(s, p).token, Raised(PhaseOf(s, p).job))) else s
    case Die(p) => Become(s, p, Dead(Claims(PhaseOf(s, p))))
    case Recover =>
      s.(disk := Recovered(s.disk), spent := s.spent + Tokens(s.disk.records),
         procs := map p | p in s.procs :: if s.procs[p].Dead? then Dead(false) else s.procs[p])
    case LosePower(after) =>
      s.(disk := after, spent := s.ages.Keys - Owners(after.lease),
         procs := map p | p in s.procs :: Dead(after.lease.Some? && after.lease.value.maker == p))
  }

  /** The operator removes the lease directory with all it holds. */
  function Recovered(disk: Disk): Disk {
    if disk.lease.None? then disk else WithoutLease(WithLease(disk, disk.lease.value.(owner := None)))
  }

  const NEW: Disk := Disk(false, false, map[], map[], {}, None, {None}, map[], None, {None}, {})

  const START: System := System(NEW, map[], map[], 0, {})

  // ----- what every step keeps -----

  /** A complete save, exactly as its manifest describes it and wholly flushed. */
  predicate Whole(tree: Tree, id: Name) {
    && Durable(tree) && tree.manifest.Some?
    && var manifest := tree.manifest.value.value;
       && manifest.id == id && |manifest.media| == MEDIA
       && forall k :: 0 <= k < MEDIA ==> k in tree.files && manifest.media[k] == IdentityOf(tree.files[k].value)
  }

  function ParentOf(tree: Tree): Option<Name> {
    if tree.manifest.Some? then tree.manifest.value.value.parent else None
  }

  predicate OlderParent(disk: Disk, ages: map<Name, nat>, id: Name)
    requires id in disk.generations
  {
    var parent := ParentOf(disk.generations[id]);
    parent.Some? ==>
      parent.value in disk.generations && parent.value in ages && id in ages && ages[parent.value] < ages[id]
  }

  ghost predicate SavesInv(disk: Disk, ages: map<Name, nat>) {
    && (forall id :: id in disk.generations ==> Whole(disk.generations[id], id))
    && (forall id :: id in disk.generations ==> OlderParent(disk, ages, id))
    && disk.generations.Keys + disk.pending.Keys <= ages.Keys
    && disk.settled <= disk.generations.Keys
    && (disk.generations != map[] ==> disk.generationsExist)
    && (disk.generationsDurable ==> disk.generationsExist)
  }

  ghost predicate PointerInv(disk: Disk) {
    disk.current in disk.possible && forall pointer :: pointer in disk.possible ==> Names?(disk, pointer)
  }

  ghost predicate NamesInv(s: System) {
    && (forall name :: name in s.ages ==> s.ages[name] < s.clock)
    && s.spent <= s.ages.Keys && LeaseSound(s.disk)
    && (forall lease :: lease in s.disk.leases ==> Owners(lease) <= s.ages.Keys)
    && (forall record :: record in s.disk.records && record.owner.Some? ==> record.owner.value !in s.spent)
  }

  predicate TokenOk(s: System, p: Process, phase: Phase) {
    match phase
    case Claiming(token) => Unspent(s, token) && s.disk.lease == Some(Lease(p, None))
    case Recording(token) => Unspent(s, token) && s.disk.lease == Some(Lease(p, Some(token)))
    case Holding(token, _) => Unspent(s, token) && s.disk.lease == Some(Lease(p, Some(token)))
    case Releasing(token) => Unspent(s, token) && s.disk.lease == Some(Lease(p, Some(token)))
    case Leaving(token, flush) =>
      && Unspent(s, token) && s.disk.lease == Some(Lease(p, None))
      && (flush ==> Lease(p, Some(token)) in s.disk.records)
    case _ => true
  }

  predicate Unspent(s: System, token: Name) { token in s.ages && token !in s.spent }

  ghost predicate LeaseInv(s: System) {
    forall p :: p in s.procs && Claims(s.procs[p]) ==>
      s.disk.lease.Some? && s.disk.lease.value.maker == p && TokenOk(s, p, s.procs[p])
  }

  /** The copies are flushed, their identities noted, and there is no file from `end` on. */
  predicate Copied(tree: Tree, media: seq<Identity>, end: nat) {
    && (forall i :: 0 <= i < |media| ==>
        i in tree.files && tree.files[i].flushed && media[i] == IdentityOf(tree.files[i].value))
    && (forall i :: i in tree.files ==> i < end)
  }

  predicate AllCopied(tree: Tree, media: seq<Identity>) { |media| == MEDIA && Copied(tree, media, MEDIA) }

  predicate FilledOk(tree: Tree, plan: Plan, stage: Stage) {
    match stage
    case Copy(k) => |plan.media| == k < MEDIA && Copied(tree, plan.media, k) && tree.manifest.None?
    case Flush(k) =>
      |plan.media| == k < MEDIA && k in tree.files && Copied(tree, plan.media, k + 1) && tree.manifest.None?
    case WriteManifest => AllCopied(tree, plan.media) && tree.manifest.None?
    case FlushManifest => AllCopied(tree, plan.media) && HasManifest(tree, plan)
    case Sync(j) =>
      && j < |SYNC_ORDER| && AllCopied(tree, plan.media) && HasManifest(tree, plan) && tree.manifest.value.flushed
      && forall i :: 0 <= i < j ==> SYNC_ORDER[i] in tree.synced
    case Rename =>
      && AllCopied(tree, plan.media) && HasManifest(tree, plan) && tree.manifest.value.flushed
      && forall i :: 0 <= i < |SYNC_ORDER| ==> SYNC_ORDER[i] in tree.synced
    case _ => true
  }

  predicate HasManifest(tree: Tree, plan: Plan) {
    tree.manifest.Some? && tree.manifest.value.value == Manifest(plan.id, plan.parent, plan.provenance, plan.media)
  }

  /** Since its checks, nothing has moved the pointer under a publish. */
  predicate PlanOk(disk: Disk, ages: map<Name, nat>, plan: Plan) {
    && plan.id in ages && MayPublish(disk, plan.parent)
    && (plan.parent.Some? ==> plan.parent.value in ages && ages[plan.parent.value] < ages[plan.id])
  }

  predicate Saved(disk: Disk, plan: Plan) {
    plan.id in disk.generations && ParentOf(disk.generations[plan.id]) == plan.parent
  }

  predicate JobOk(disk: Disk, ages: map<Name, nat>, p: Process, job: Job) {
    match job
    case Building(plan, stage) =>
      && PlanOk(disk, ages, plan)
      && if stage.SyncGenerations? then Saved(disk, plan)
         else
           && plan.id !in disk.generations
           && if stage.MakeGenerations? || stage.MakePending?
                then plan.media == [] && (stage.MakePending? ==> disk.generationsExist)
              else disk.generationsExist && plan.id in disk.pending && FilledOk(disk.pending[plan.id], plan, stage)
    case Pointing(id, origin, step) =>
      && (origin.Some? ==> origin.value.id == id && Saved(disk, origin.value) && id in disk.settled)
      && (origin.Some? && !step.SyncRoot? ==> PlanOk(disk, ages, origin.value))
      && (step.WriteTemporary? || step.FlushTemporary? || step.Replace? ==> Accepts(disk, id))
      && (step.FlushTemporary? ==> p in disk.temporaries && disk.temporaries[p].value == id)
      && (step.Replace? ==> p in disk.temporaries && disk.temporaries[p] == File(id, true))
      && (step.SyncRoot? ==> disk.current == Some(Pointer.Names(id)))
    case _ => true
  }

  ghost predicate JobsInv(s: System) {
    forall p :: p in s.procs && s.procs[p].Holding? ==> JobOk(s.disk, s.ages, p, s.procs[p].job)
  }

  ghost predicate Inv(s: System) {
    SavesInv(s.disk, s.ages) && PointerInv(s.disk) && NamesInv(s) && LeaseInv(s) && JobsInv(s)
  }

  // ----- one operation of publish or select -----

  lemma FillKeeps(tree: Tree, plan: Plan, stage: Stage, content: seq<Octet>)
    requires stage.Copy? || stage.Flush? || stage.WriteManifest? || stage.FlushManifest? || stage.Sync?
    requires FilledOk(tree, plan, stage)
    ensures var noted := if stage.Flush? then plan.(media := plan.media + [IdentityOf(tree.files[stage.medium].value)])
      else plan;
      FilledOk(Filled(tree, plan, stage, content), noted, NextStage(stage))
  {
  }

  lemma WholeWhenRenamed(tree: Tree, plan: Plan)
    requires FilledOk(tree, plan, Rename)
    ensures Whole(tree, plan.id) && ParentOf(tree) == plan.parent
  {
    forall d: Directory ensures d in tree.synced && d in DIRECTORIES {
      match d
      case Images => assert d == SYNC_ORDER[0];
      case Pdp11 => assert d == SYNC_ORDER[1];
      case Host106 => assert d == SYNC_ORDER[2];
      case Top => assert d == SYNC_ORDER[3];
    }
    assert tree.synced == DIRECTORIES;
  }

  lemma FlushedFile(tree: Tree, plan: Plan, medium: nat)
    requires FilledOk(tree, plan, Flush(medium))
    ensures medium in tree.files
  {
  }

  lemma EmptyTree(plan: Plan)
    requires plan.media == []
    ensures FilledOk(Tree(map[], None, {}), plan, Copy(0))
  {
  }

  lemma RenameKeeps(disk: Disk, ages: map<Name, nat>, p: Process, plan: Plan, content: seq<Octet>)
    requires SavesInv(disk, ages) && PointerInv(disk) && JobOk(disk, ages, p, Building(plan, Rename))
    ensures var (after, job) := Advance(disk, p, Building(plan, Rename), content);
      SavesInv(after, ages) && PointerInv(after) && JobOk(after, ages, p, job)
  {
    WholeWhenRenamed(disk.pending[plan.id], plan);
    hide FilledOk, Whole, Verified, Filled;
    var (after, _) := Advance(disk, p, Building(plan, Rename), content);
    if plan.parent.Some? {
      assert Names?(disk, disk.current);
    }
    forall id | id in after.generations ensures OlderParent(after, ages, id) {
      if id != plan.id {
        assert OlderParent(disk, ages, id);
      }
    }
  }

  lemma BuildKeeps(disk: Disk, ages: map<Name, nat>, p: Process, plan: Plan, stage: Stage, content: seq<Octet>)
    requires !stage.Rename?
    requires SavesInv(disk, ages) && PointerInv(disk) && JobOk(disk, ages, p, Building(plan, stage))
    ensures var (after, job) := Advance(disk, p, Building(plan, stage), content);
      SavesInv(after, ages) && PointerInv(after) && JobOk(after, ages, p, job)
  {
    hide FilledOk, Whole, Verified, Filled;
    if stage.Flush? {
      FlushedFile(disk.pending[plan.id], plan, stage.medium);
    }
    if stage.Copy? || stage.Flush? || stage.WriteManifest? || stage.FlushManifest? || stage.Sync? {
      FillKeeps(disk.pending[plan.id], plan, stage, content);
    } else if stage.MakePending? {
      EmptyTree(plan);
    }
  }

  lemma PointKeepsSaves(disk: Disk, ages: map<Name, nat>, p: Process, job: Job, content: seq<Octet>)
    requires !job.Building? && SavesInv(disk, ages)
    ensures var (after, _) := Advance(disk, p, job, content);
      SavesInv(after, ages) && after.generations == disk.generations
  {
    hide Whole, Verified;
    var (after, _) := Advance(disk, p, job, content);
    forall id | id in after.generations ensures OlderParent(after, ages, id) {
      assert OlderParent(disk, ages, id);
    }
  }

  lemma PointKeepsPointer(disk: Disk, ages: map<Name, nat>, p: Process, job: Job, content: seq<Octet>)
    requires !job.Building? && PointerInv(disk) && JobOk(disk, ages, p, job)
    ensures PointerInv(Advance(disk, p, job, content).0)
  {
    hide Verified, PlanOk, Saved;
    var (after, _) := Advance(disk, p, job, content);
    forall pointer | pointer in after.possible ensures Names?(after, pointer) {
      if pointer in disk.possible {
        assert Names?(disk, pointer);
      }
    }
  }

  lemma PointKeeps(disk: Disk, ages: map<Name, nat>, p: Process, job: Job, content: seq<Octet>)
    requires !job.Building? && JobOk(disk, ages, p, job)
    ensures var (after, next) := Advance(disk, p, job, content); JobOk(after, ages, p, next)
  {
    hide Whole, Verified;
  }

  lemma AdvanceKeeps(disk: Disk, ages: map<Name, nat>, p: Process, job: Job, content: seq<Octet>)
    requires SavesInv(disk, ages) && PointerInv(disk) && JobOk(disk, ages, p, job)
    ensures var (after, next) := Advance(disk, p, job, content);
      SavesInv(after, ages) && PointerInv(after) && JobOk(after, ages, p, next)
  {
    if job.Building? {
      if job.stage.Rename? {
        RenameKeeps(disk, ages, p, job.plan, content);
      } else {
        BuildKeeps(disk, ages, p, job.plan, job.stage, content);
      }
    } else {
      PointKeepsSaves(disk, ages, p, job, content);
      PointKeepsPointer(disk, ages, p, job, content);
      PointKeeps(disk, ages, p, job, content);
    }
  }

  // ----- steps that touch only the lease, the names or the flushed view -----

  predicate Extends(ages: map<Name, nat>, more: map<Name, nat>) {
    forall name :: name in ages ==> name in more && more[name] == ages[name]
  }

  /** The disks differ at most in the lease and in what a power loss may bring back. */
  predicate Alike(a: Disk, b: Disk) {
    && a.generationsExist == b.generationsExist && a.pending == b.pending && a.generations == b.generations
    && a.settled == b.settled && a.current == b.current && a.temporaries == b.temporaries
  }

  lemma JobFrame(a: Disk, b: Disk, ages: map<Name, nat>, more: map<Name, nat>, p: Process, job: Job)
    requires Alike(a, b) && Extends(ages, more) && JobOk(a, ages, p, job)
    ensures JobOk(b, more, p, job)
  {
    hide FilledOk, Verified;
  }

  lemma SavesFrame(a: Disk, b: Disk, ages: map<Name, nat>, more: map<Name, nat>)
    requires Alike(a, b) && Extends(ages, more) && SavesInv(a, ages)
    requires b.generationsDurable ==> b.generationsExist
    ensures SavesInv(b, more)
  {
    hide Whole;
    forall id | id in b.generations ensures OlderParent(b, more, id) {
      assert OlderParent(a, ages, id);
    }
  }

  lemma PointerFrame(a: Disk, b: Disk)
    requires Alike(a, b) && PointerInv(a) && b.possible <= a.possible && b.current in b.possible
    ensures PointerInv(b)
  {
    hide Verified;
    forall pointer | pointer in b.possible ensures Names?(b, pointer) {
      assert Names?(a, pointer);
    }
  }

  /** Everything but the processes and the lease rules survives such a step. */
  lemma QuietStep(s: System, t: System)
    requires SavesInv(s.disk, s.ages) && PointerInv(s.disk) && Alike(s.disk, t.disk) && Extends(s.ages, t.ages)
    requires t.disk.generationsDurable ==> t.disk.generationsExist
    requires t.disk.possible <= s.disk.possible && t.disk.current in t.disk.possible
    ensures SavesInv(t.disk, t.ages) && PointerInv(t.disk)
    ensures forall p, job :: JobOk(s.disk, s.ages, p, job) ==> JobOk(t.disk, t.ages, p, job)
  {
    SavesFrame(s.disk, t.disk, s.ages, t.ages);
    PointerFrame(s.disk, t.disk);
    forall p, job | JobOk(s.disk, s.ages, p, job) ensures JobOk(t.disk, t.ages, p, job) {
      JobFrame(s.disk, t.disk, s.ages, t.ages, p, job);
    }
  }

  predicate Quiet(e: Event) { !e.Proceed? && !e.LosePower? && !e.Publish? && !e.Select? && !e.Raise? }

  lemma QuietKeepsDisk(s: System, e: Event)
    requires Inv(s) && Allowed(s, e) && Quiet(e)
    ensures var t := After(s, e); SavesInv(t.disk, t.ages) && PointerInv(t.disk) && JobsInv(t)
  {
    hide JobOk, SavesInv, PointerInv;
    var t := After(s, e);
    QuietInputs(s, e);
    QuietStep(s, t);
    forall p | p in t.procs && t.procs[p].Holding? ensures JobOk(t.disk, t.ages, p, t.procs[p].job) {
      RestingOk(t.disk, t.ages, p);
      assert t.procs[p].job.Resting? || (p in s.procs && s.procs[p] == t.procs[p]);
    }
  }

  lemma RestingOk(disk: Disk, ages: map<Name, nat>, p: Process)
    ensures JobOk(disk, ages, p, Resting)
  {
  }

  lemma QuietInputs(s: System, e: Event)
    requires Inv(s) && Allowed(s, e) && Quiet(e)
    ensures var t := After(s, e);
      && Alike(s.disk, t.disk) && Extends(s.ages, t.ages) && (t.disk.generationsDurable ==> t.disk.generationsExist)
      && t.disk.possible <= s.disk.possible && t.disk.current in t.disk.possible
  {
    hide JobOk, OlderParent, Whole, Verified;
  }

  // ----- the names and the lease, whatever else happens -----

  ghost predicate OwnerInv(s: System) { NamesInv(s) && LeaseInv(s) }

  predicate Leasing(e: Event) {
    e.Acquire? || e.WriteOwner? || e.FlushOwner? || e.GiveUp?
    || e.Release? || e.RemoveOwner? || e.RemoveLease? || e.FlushRoot?
  }

  lemma LeasingNames(s: System, e: Event)
    requires OwnerInv(s) && Allowed(s, e) && Leasing(e)
    ensures NamesInv(After(s, e))
  {
  }

  lemma LeasingClaims(s: System, e: Event)
    requires OwnerInv(s) && Allowed(s, e) && Leasing(e)
    ensures LeaseInv(After(s, e))
  {
  }

  lemma AdvanceKeepsLease(disk: Disk, p: Process, job: Job, content: seq<Octet>)
    requires LeaseSound(disk)
    ensures var after := Advance(disk, p, job, content).0;
      && after.lease == disk.lease && after.records == disk.records && after.leases <= disk.leases && LeaseSound(after)
  {
    if job.Pointing? && job.step.SyncRoot? {
      FlushKeepsLease(disk);
    } else {
      AdvanceOffLease(disk, p, job, content);
      hide Advance;
    }
  }

  lemma FlushKeepsLease(disk: Disk)
    requires LeaseSound(disk)
    ensures RootFlushed(disk).leases <= disk.leases && LeaseSound(RootFlushed(disk))
  {
  }

  lemma AdvanceOffLease(disk: Disk, p: Process, job: Job, content: seq<Octet>)
    requires !(job.Pointing? && job.step.SyncRoot?)
    ensures var after := Advance(disk, p, job, content).0;
      after.lease == disk.lease && after.records == disk.records && after.leases == disk.leases
  {
    hide Verified, Filled;
  }

  lemma ProceedOwners(s: System, p: Process, content: seq<Octet>)
    requires OwnerInv(s) && PhaseOf(s, p).Holding?
    ensures OwnerInv(After(s, Proceed(p, content)))
  {
    AdvanceKeepsLease(s.disk, p, s.procs[p].job, content);
    hide Advance, LeaseSound;
  }

  /** No step, not even a power loss, breaks them. */
  lemma OwnerStep(s: System, e: Event)
    requires OwnerInv(s) && Allowed(s, e)
    ensures OwnerInv(After(s, e))
  {
    if Leasing(e) {
      LeasingNames(s, e);
      LeasingClaims(s, e);
    } else if e.Proceed? {
      ProceedOwners(s, e.p, e.content);
    } else {
      hide Advance, PowerLoss, Verified;
      if e.LosePower? {
        LossOwners(s, e.after);
      }
    }
  }

  lemma LossOwners(s: System, after: Disk)
    requires OwnerInv(s) && PowerLoss(s.disk, after)
    ensures OwnerInv(After(s, LosePower(after)))
  {
    hide Survives;
  }

  // ----- every step -----

  lemma OnlyHolder(s: System, p: Process, q: Process)
    requires LeaseInv(s) && Claims(PhaseOf(s, p)) && Claims(PhaseOf(s, q))
    ensures p == q
  {
    hide TokenOk;
  }

  lemma ProceedKeeps(s: System, p: Process, content: seq<Octet>)
    requires Inv(s) && Allowed(s, Proceed(p, content))
    ensures Inv(After(s, Proceed(p, content)))
  {
    hide JobOk, SavesInv, PointerInv, Advance;
    var t := After(s, Proceed(p, content));
    AdvanceKeeps(s.disk, s.ages, p, s.procs[p].job, content);
    ProceedOwners(s, p, content);
    forall q | q in t.procs && t.procs[q].Holding? ensures JobOk(t.disk, t.ages, q, t.procs[q].job) {
      OnlyHolder(s, p, q);
    }
  }

  lemma BusyKeeps(s: System, e: Event)
    requires Inv(s) && Allowed(s, e) && (e.Publish? || e.Select? || e.Raise?)
    ensures Inv(After(s, e))
  {
    hide SavesInv, PointerInv, JobOk, FilledOk, Verified;
    var t := After(s, e);
    QuietStepFor(s, t);
    forall q | q in t.procs && t.procs[q].Holding? ensures JobOk(t.disk, t.ages, q, t.procs[q].job) {
      if q == e.p {
        StartOk(s, e);
      } else {
        OnlyHolder(s, e.p, q);
      }
    }
  }

  lemma QuietStepFor(s: System, t: System)
    requires Inv(s) && t.disk == s.disk && Extends(s.ages, t.ages)
    ensures SavesInv(t.disk, t.ages) && PointerInv(t.disk)
  {
    hide JobOk, Whole, OlderParent, Verified;
    SavesFrame(s.disk, t.disk, s.ages, t.ages);
  }

  lemma StartOk(s: System, e: Event)
    requires Inv(s) && Allowed(s, e) && (e.Publish? || e.Select? || e.Raise?)
    ensures var t := After(s, e);
      e.p in t.procs && t.procs[e.p].Holding? ==> JobOk(t.disk, t.ages, e.p, t.procs[e.p].job)
  {
    hide FilledOk, Whole, OlderParent, Verified, TokenOk;
  }

  /** No step short of a power loss breaks the invariant. */
  lemma StepKeeps(s: System, e: Event)
    requires Inv(s) && Allowed(s, e) && !e.LosePower?
    ensures Inv(After(s, e))
  {
    hide Allowed, After, SavesInv, PointerInv, NamesInv, LeaseInv, JobsInv;
    if Quiet(e) {
      QuietKeepsDisk(s, e);
      OwnerStep(s, e);
    } else if e.Proceed? {
      ProceedKeeps(s, e.p, e.content);
    } else {
      BusyKeeps(s, e);
    }
  }

  // ----- power loss -----

  /** Every pointer a power loss may bring back names a generation whose entry is on disk. */
  predicate Anchored(disk: Disk) {
    forall pointer :: pointer in disk.possible && pointer.Some? ==>
      disk.generationsDurable && pointer.value.Names? && pointer.value.id in disk.settled
  }

  predicate ParentsSettled(disk: Disk) {
    forall id :: id in disk.generations && ParentOf(disk.generations[id]).Some? ==>
      ParentOf(disk.generations[id]).value in disk.settled
  }

  predicate Sturdy(disk: Disk) { Anchored(disk) && ParentsSettled(disk) }

  /** Whatever a power loss now leaves, the pointer found names an acceptable generation. */
  ghost predicate PowerSafe(disk: Disk) { forall after :: PowerLoss(disk, after) ==> Safe(after) }

  lemma SurvivorsIntact(before: Disk, after: Disk, ages: map<Name, nat>)
    requires SavesInv(before, ages) && PowerLoss(before, after)
    ensures forall id :: id in after.generations ==>
      id in before.generations && after.generations[id] == before.generations[id]
  {
    forall id | id in after.generations
      ensures id in before.generations && after.generations[id] == before.generations[id]
    {
      assert Whole(before.generations[id], id);
      DurableSurvives(before.generations[id], after.generations[id]);
    }
  }

  lemma AnchoredIsSafe(disk: Disk, ages: map<Name, nat>)
    requires SavesInv(disk, ages) && PointerInv(disk) && Anchored(disk)
    ensures PowerSafe(disk)
  {
    forall after | PowerLoss(disk, after) ensures Safe(after) {
      hide Whole, Survives, Verified, OlderParent;
      SurvivorsIntact(disk, after, ages);
      assert Names?(disk, after.current);
    }
  }

  /** The disk on which a power loss left `pointer`, and of the rest only what was settled. */
  function Ruin(disk: Disk, pointer: Option<Pointer>): Disk
    requires disk.settled <= disk.generations.Keys
  {
    Leavings(disk, if disk.generationsDurable then map id | id in disk.settled :: disk.generations[id] else map[],
         pointer, disk.lease)
  }

  /** What a power loss left, when it left no generation unfinished and no temporary. */
  function Leavings(disk: Disk, generations: map<Name, Tree>, pointer: Option<Pointer>, lease: Option<Lease>): Disk {
    Disk(disk.generationsDurable, disk.generationsDurable, map[], generations, generations.Keys, pointer, {pointer},
         map[], lease, {lease}, if lease.Some? then {lease.value} else {})
  }

  lemma SafeIsAnchored(disk: Disk, ages: map<Name, nat>)
    requires SavesInv(disk, ages) && PointerInv(disk) && LeaseSound(disk) && PowerSafe(disk)
    ensures Anchored(disk)
  {
    forall pointer | pointer in disk.possible && pointer.Some?
      ensures disk.generationsDurable && pointer.value.Names? && pointer.value.id in disk.settled
    {
      hide Verified, OlderParent;
      var ruin := Ruin(disk, pointer);
      forall id | id in ruin.generations ensures Survives(disk.generations[id], ruin.generations[id]) {
        assert Whole(disk.generations[id], id);
      }
      assert PowerLoss(disk, ruin);
      assert Names?(disk, pointer);
    }
  }

  lemma PowerLossKeeps(s: System, e: Event)
    requires Inv(s) && Sturdy(s.disk) && Allowed(s, e) && e.LosePower?
    ensures Inv(After(s, e)) && Sturdy(After(s, e).disk)
  {
    var (before, after) := (s.disk, e.after);
    SurvivorsIntact(before, after, s.ages);
    PowerLossKeepsDisk(before, after, s.ages);
    OwnerStep(s, e);
    hide SavesInv, PointerInv, OwnerInv, NamesInv, LeaseInv, JobOk, Sturdy, PowerLoss;
    assert JobsInv(After(s, e));
  }

  lemma PowerLossKeepsDisk(before: Disk, after: Disk, ages: map<Name, nat>)
    requires SavesInv(before, ages) && PointerInv(before) && Sturdy(before) && PowerLoss(before, after)
    ensures SavesInv(after, ages) && PointerInv(after) && Sturdy(after)
  {
    hide Whole, Verified, Survives;
    SurvivorsIntact(before, after, ages);
    forall id | id in after.generations ensures OlderParent(after, ages, id) {
      assert OlderParent(before, ages, id);
    }
    assert Names?(before, after.current);
  }

  // ----- when the pointer survives a power loss -----

  predicate AtReplace(s: System, e: Event) {
    && e.Proceed? && PhaseOf(s, e.p).Holding? && PhaseOf(s, e.p).job.Pointing? && PhaseOf(s, e.p).job.step.Replace?
  }

  /** The pointer is replaced only by a generation whose directory entries are on disk. */
  predicate Careful(s: System, e: Event) {
    AtReplace(s, e) ==> s.disk.generationsDurable && PhaseOf(s, e.p).job.id in s.disk.settled
  }

  lemma ProceedKeepsSturdy(disk: Disk, ages: map<Name, nat>, p: Process, job: Job, content: seq<Octet>)
    requires SavesInv(disk, ages) && PointerInv(disk) && JobOk(disk, ages, p, job) && Sturdy(disk)
    requires job.Pointing? && job.step.Replace? ==> disk.generationsDurable && job.id in disk.settled
    ensures Sturdy(Advance(disk, p, job, content).0)
  {
    hide Whole, Verified, OlderParent, Filled;
    if job.Building? && job.stage.Rename? {
      RenameKeeps(disk, ages, p, job.plan, content);
      WholeWhenRenamed(disk.pending[job.plan.id], job.plan);
    }
  }

  /** A careful step keeps the workspace safe from a later power loss. */
  lemma SturdyStep(s: System, e: Event)
    requires Inv(s) && Allowed(s, e) && Sturdy(s.disk) && Careful(s, e)
    ensures Inv(After(s, e)) && Sturdy(After(s, e).disk)
  {
    if e.LosePower? {
      PowerLossKeeps(s, e);
    } else {
      StepKeeps(s, e);
      if e.Proceed? {
        hide Advance, Sturdy, JobOk, SavesInv, PointerInv;
        ProceedKeepsSturdy(s.disk, s.ages, e.p, s.procs[e.p].job, e.content);
      } else {
        QuietSturdy(s, e);
      }
    }
  }

  lemma QuietSturdy(s: System, e: Event)
    requires Inv(s) && Sturdy(s.disk) && Allowed(s, e) && !e.LosePower? && !e.Proceed?
    ensures Sturdy(After(s, e).disk)
  {
    hide Whole, OlderParent, JobOk, LeaseInv, NamesInv, JobsInv, Verified;
  }

  /** Replacing the pointer leaves a workspace that no power loss can break exactly when the
      generation's entry, and that of `generations` itself, were flushed beforehand. */
  lemma ReplaceIsSafeIff(s: System, e: Event)
    requires Inv(s) && Sturdy(s.disk) && AtReplace(s, e)
    ensures PowerSafe(After(s, e).disk) <==> s.disk.generationsDurable && PhaseOf(s, e.p).job.id in s.disk.settled
  {
    var t := After(s, e);
    StepKeeps(s, e);
    if s.disk.generationsDurable && PhaseOf(s, e.p).job.id in s.disk.settled {
      SturdyStep(s, e);
      AnchoredIsSafe(t.disk, t.ages);
    }
    if PowerSafe(t.disk) {
      SafeIsAnchored(t.disk, t.ages);
      assert Some(Pointer.Names(PhaseOf(s, e.p).job.id)) in t.disk.possible;
    }
  }

  /** A publish that replaces an earlier save is always careful; a seed publish exactly when
      `generations` was flushed into the root before, which publish itself never does. */
  lemma PublishIsCareful(s: System, e: Event)
    requires Inv(s) && Sturdy(s.disk) && AtReplace(s, e) && PhaseOf(s, e.p).job.origin.Some?
    ensures PhaseOf(s, e.p).job.origin.value.parent.Some? ==> Careful(s, e)
    ensures Careful(s, e) <==> s.disk.generationsDurable
  {
    hide Whole, Verified, OlderParent;
  }

  // ----- runs over power failures -----

  /** Every pointer a power failure may bring back names a flushed save, as does every recorded
      parent; and before the first pointer there is none to bring back. */
  predicate Grounded(disk: Disk) {
    && (forall pointer :: pointer in disk.possible && pointer.Some? ==>
          pointer.value.Names? && pointer.value.id in disk.settled)
    && ParentsSettled(disk) && (disk.current.None? ==> disk.possible == {None})
  }

  /** There is no pointer yet, or the entry of `generations` is flushed. */
  predicate Rooted(disk: Disk) { disk.current.Some? ==> disk.generationsDurable }

  lemma RootedIsSturdy(s: System)
    requires Inv(s) && Grounded(s.disk)
    ensures Sturdy(s.disk) <==> Rooted(s.disk)
    ensures Anchored(s.disk) <==> Rooted(s.disk)
  {
    hide SavesInv, NamesInv, LeaseInv, JobsInv, Verified;
  }

  /** A select replaces the pointer only by a save whose entry is flushed. */
  predicate Trusts(s: System, e: Event) {
    AtReplace(s, e) && PhaseOf(s, e.p).job.origin.None? ==> PhaseOf(s, e.p).job.id in s.disk.settled
  }

  lemma RenameGrounds(disk: Disk, ages: map<Name, nat>, p: Process, plan: Plan, content: seq<Octet>)
    requires SavesInv(disk, ages) && PointerInv(disk) && JobOk(disk, ages, p, Building(plan, Rename)) && Grounded(disk)
    ensures Grounded(Advance(disk, p, Building(plan, Rename), content).0)
  {
    RenameKeeps(disk, ages, p, plan, content);
    WholeWhenRenamed(disk.pending[plan.id], plan);
    hide SavesInv, PointerInv, Whole, Verified, OlderParent, Filled, FilledOk;
  }

  lemma ProceedKeepsGrounded(disk: Disk, ages: map<Name, nat>, p: Process, job: Job, content: seq<Octet>)
    requires SavesInv(disk, ages) && PointerInv(disk) && JobOk(disk, ages, p, job) && Grounded(disk)
    requires job.Pointing? && job.step.Replace? ==> job.id in disk.settled
    ensures Grounded(Advance(disk, p, job, content).0)
  {
    hide Whole, Verified, OlderParent, Filled, FilledOk;
    if job.Building? && job.stage.Rename? {
      RenameGrounds(disk, ages, p, job.plan, content);
    }
  }

  lemma GroundedStep(s: System, e: Event)
    requires Inv(s) && Grounded(s.disk) && Allowed(s, e) && Trusts(s, e) && (e.LosePower? ==> Rooted(s.disk))
    ensures Inv(After(s, e)) && Grounded(After(s, e).disk)
  {
    if e.LosePower? {
      RootedIsSturdy(s);
      PowerLossKeeps(s, e);
      LossGrounds(s.disk, e.after, s.ages);
    } else {
      StepKeeps(s, e);
      if e.Proceed? {
        ReplacesSettled(s, e);
        hide Advance, Grounded, JobOk, SavesInv, PointerInv, Trusts;
        ProceedKeepsGrounded(s.disk, s.ages, e.p, s.procs[e.p].job, e.content);
      } else {
        QuietGrounds(s, e);
      }
    }
  }

  lemma LossGrounds(before: Disk, after: Disk, ages: map<Name, nat>)
    requires SavesInv(before, ages) && PointerInv(before) && Sturdy(before) && PowerLoss(before, after)
    ensures Grounded(after)
  {
    PowerLossKeepsDisk(before, after, ages);
  }

  lemma QuietGrounds(s: System, e: Event)
    requires Inv(s) && Grounded(s.disk) && Allowed(s, e) && !e.LosePower? && !e.Proceed?
    ensures Grounded(After(s, e).disk)
  {
    hide SavesInv, JobOk, LeaseInv, NamesInv, JobsInv, Verified;
  }

  lemma ReplacesSettled(s: System, e: Event)
    requires Inv(s) && e.Proceed? && Allowed(s, e) && Trusts(s, e)
    ensures e.p in s.procs && s.procs[e.p].Holding?
    ensures AtReplace(s, e) ==> s.procs[e.p].job.id in s.disk.settled
  {
    hide SavesInv, PointerInv, LeaseInv, NamesInv, Verified, PlanOk, Saved;
  }

  // ----- runs -----

  ghost function Reach(events: seq<Event>): System {
    if events == [] then START else After(Reach(events[..|events| - 1]), events[|events| - 1])
  }

  ghost predicate Legal(events: seq<Event>) {
    events == [] || (Legal(events[..|events| - 1]) && Allowed(Reach(events[..|events| - 1]), events[|events| - 1]))
  }

  /** No power loss, and nothing asked of the callers beyond the lease. */
  ghost predicate Powered(events: seq<Event>) {
    events == [] || (Powered(events[..|events| - 1]) && !events[|events| - 1].LosePower?)
  }

  /** Every power failure of the run met a disk on which what the pointers and the saves
      depend on was flushed. */
  ghost predicate Sheltered(events: seq<Event>) {
    events == []
    || (Sheltered(events[..|events| - 1])
        && (events[|events| - 1].LosePower? ==> Sturdy(Reach(events[..|events| - 1]).disk)))
  }

  /** Every select that replaced the pointer chose a save whose entry was flushed. */
  ghost predicate SettledSelects(events: seq<Event>) {
    events == []
    || (SettledSelects(events[..|events| - 1]) && Trusts(Reach(events[..|events| - 1]), events[|events| - 1]))
  }

  /** No power failure came between a seed's pointer and the next flush of the root. */
  ghost predicate RootedLosses(events: seq<Event>) {
    events == []
    || (RootedLosses(events[..|events| - 1])
        && (events[|events| - 1].LosePower? ==> Rooted(Reach(events[..|events| - 1]).disk)))
  }

  lemma StartHolds()
    ensures Inv(START) && Sturdy(START.disk) && Grounded(START.disk)
  {
  }

  /** However many processes interleave, raise or die, at every moment current.json is absent
      or names a generation that verification accepts. */
  lemma {:induction false} ProcessSafety(events: seq<Event>)
    requires Legal(events) && Powered(events)
    ensures Inv(Reach(events)) && Safe(Reach(events).disk)
  {
    hide Inv, After, Allowed;
    if events == [] {
      StartHolds();
    } else {
      ProcessSafety(events[..|events| - 1]);
      StepKeeps(Reach(events[..|events| - 1]), events[|events| - 1]);
    }
    InvIsSafe(Reach(events));
  }

  lemma InvIsSafe(s: System)
    requires Inv(s)
    ensures Safe(s.disk)
  {
    hide SavesInv, Verified;
  }

  /** With power failures too, as long as each meets a sturdy disk; and a further one is
      harmless exactly while every pointer it may bring back is anchored. */
  lemma {:induction false} ShelteredSafety(events: seq<Event>)
    requires Legal(events) && Sheltered(events)
    ensures Inv(Reach(events)) && Safe(Reach(events).disk)
    ensures PowerSafe(Reach(events).disk) <==> Anchored(Reach(events).disk)
  {
    hide Inv, After, Allowed, Sturdy, Anchored, PowerSafe;
    if events == [] {
      StartHolds();
    } else {
      var (rest, e) := (events[..|events| - 1], events[|events| - 1]);
      ShelteredSafety(rest);
      if e.LosePower? {
        PowerLossKeeps(Reach(rest), e);
      } else {
        StepKeeps(Reach(rest), e);
      }
    }
    InvIsSafe(Reach(events));
    AnchoredExactly(Reach(events));
  }

  lemma AnchoredExactly(s: System)
    requires Inv(s)
    ensures PowerSafe(s.disk) <==> Anchored(s.disk)
  {
    if Anchored(s.disk) {
      AnchoredIsSafe(s.disk, s.ages);
    }
    if PowerSafe(s.disk) {
      SafeIsAnchored(s.disk, s.ages);
    }
  }

  /** From a new workspace on, over every run of publishes, of selects of flushed saves, and of
      exceptions, deaths and power failures, where none of the latter falls between a seed's
      pointer and the next flush of the root: the pointer is always safe, and a power failure
      at this moment is harmless if and only if there is no pointer yet or the entry of
      `generations` is flushed. */
  lemma {:induction false} PowerLossSafety(events: seq<Event>)
    requires Legal(events) && SettledSelects(events) && RootedLosses(events)
    ensures Inv(Reach(events)) && Grounded(Reach(events).disk) && Sheltered(events)
    ensures Safe(Reach(events).disk)
    ensures PowerSafe(Reach(events).disk) <==> Rooted(Reach(events).disk)
  {
    hide Inv, After, Allowed, Sturdy, Grounded, Rooted, Trusts, PowerSafe;
    if events == [] {
      StartHolds();
    } else {
      var (rest, e) := (events[..|events| - 1], events[|events| - 1]);
      PowerLossSafety(rest);
      GroundedStep(Reach(rest), e);
      if e.LosePower? {
        RootedIsSturdy(Reach(rest));
      }
    }
    InvIsSafe(Reach(events));
    RootedIsSturdy(Reach(events));
    AnchoredExactly(Reach(events));
  }

  /** Once the entry of `generations` is flushed, it is so for good: from then on the power may
      fail at any step of any publish or select of a flushed save, and the pointer is safe. */
  lemma {:induction false} SeededSafety(before: seq<Event>, more: seq<Event>)
    requires Legal(before + more) && SettledSelects(before + more) && RootedLosses(before)
    requires Reach(before).disk.generationsDurable
    ensures RootedLosses(before + more) && Reach(before + more).disk.generationsDurable
    ensures Inv(Reach(before + more)) && Sturdy(Reach(before + more).disk)
    ensures Safe(Reach(before + more).disk) && PowerSafe(Reach(before + more).disk)
  {
    hide Inv, After, Allowed, Sturdy, Grounded, Trusts, PowerSafe;
    if more == [] {
      assert before + more == before;
    } else {
      var (rest, e) := (more[..|more| - 1], more[|more| - 1]);
      assert (before + more)[..|before + more| - 1] == before + rest;
      SeededSafety(before, rest);
      DurableStays(Reach(before + rest), e);
    }
    PowerLossSafety(before + more);
    RootedIsSturdy(Reach(before + more));
  }

  lemma DurableStays(s: System, e: Event)
    requires Inv(s) && Allowed(s, e) && s.disk.generationsDurable
    ensures After(s, e).disk.generationsDurable
  {
    hide Whole, Verified, OlderParent, Filled, Survives, JobOk;
  }

  /** A select chooses a flushed save. */
  predicate ChoosesSettled(s: System, e: Event) { e.Select? ==> e.id in s.disk.settled }

  /** Every select of the run chose a save whose entry was flushed when it was called. */
  ghost predicate SettledChoices(events: seq<Event>) {
    events == []
    || (SettledChoices(events[..|events| - 1]) && ChoosesSettled(Reach(events[..|events| - 1]), events[|events| - 1]))
  }

  /** Every save being pointed at is flushed. */
  ghost predicate PointsSettled(s: System) {
    forall p :: p in s.procs && s.procs[p].Holding? && s.procs[p].job.Pointing? ==> s.procs[p].job.id in s.disk.settled
  }

  lemma PointsSettledStep(s: System, e: Event)
    requires Inv(s) && PointsSettled(s) && Allowed(s, e) && ChoosesSettled(s, e)
    ensures PointsSettled(After(s, e)) && Trusts(s, e)
  {
    hide Whole, Verified, OlderParent, Filled, FilledOk, Survives, PlanOk, NamesInv, PointerInv;
    var t := After(s, e);
    forall p | p in t.procs && t.procs[p].Holding? && t.procs[p].job.Pointing?
      ensures t.procs[p].job.id in t.disk.settled
    {
      if e.Proceed? && p == e.p {
        assert JobOk(s.disk, s.ages, p, s.procs[p].job);
      }
    }
  }

  /** What was flushed when it was chosen is flushed when the pointer is replaced. */
  lemma {:induction false} ChosenStaysSettled(events: seq<Event>)
    requires Legal(events) && SettledChoices(events) && RootedLosses(events)
    ensures SettledSelects(events) && PointsSettled(Reach(events))
  {
    hide Inv, After, Allowed, Rooted, Trusts, ChoosesSettled, PointsSettled;
    if events == [] {
      NothingPoints();
    } else {
      ChosenStaysSettled(events[..|events| - 1]);
      PowerLossSafety(events[..|events| - 1]);
      PointsSettledStep(Reach(events[..|events| - 1]), events[|events| - 1]);
    }
  }

  /** So for callers it is enough to choose only saves that are flushed when they call. */
  lemma {:induction false} SeededChoices(before: seq<Event>, more: seq<Event>)
    requires Legal(before + more) && SettledChoices(before + more) && RootedLosses(before)
    requires Reach(before).disk.generationsDurable
    ensures RootedLosses(before + more) && SettledSelects(before + more) && Reach(before + more).disk.generationsDurable
    ensures Inv(Reach(before + more)) && Safe(Reach(before + more).disk) && PowerSafe(Reach(before + more).disk)
  {
    hide Inv, After, Allowed, Sturdy, Grounded, Trusts, ChoosesSettled, PowerSafe;
    if more == [] {
      assert before + more == before;
    } else {
      assert (before + more)[..|before + more| - 1] == before + more[..|more| - 1];
      SeededChoices(before, more[..|more| - 1]);
    }
    ChosenStaysSettled(before + more);
    SeededSafety(before, more);
  }

  lemma NothingPoints()
    ensures PointsSettled(START)
  {
  }

  // ----- saves never change -----

  /** No step changes a published generation; only a power loss can remove one, and then only
      one whose directory entries were never flushed. */
  lemma SavesAreImmutable(s: System, e: Event, id: Name)
    requires Inv(s) && Allowed(s, e) && id in s.disk.generations
    ensures id in After(s, e).disk.generations ==> After(s, e).disk.generations[id] == s.disk.generations[id]
    ensures !e.LosePower? || (id in s.disk.settled && s.disk.generationsDurable) ==> id in After(s, e).disk.generations
  {
    hide Whole, Verified, OlderParent, FilledOk, Filled, Survives;
    if e.LosePower? {
      SurvivorsIntact(s.disk, e.after, s.ages);
    }
  }

  // ----- the lease -----

  lemma {:induction false} OwnersAlways(events: seq<Event>)
    requires Legal(events)
    ensures OwnerInv(Reach(events))
  {
    hide OwnerInv, After, Allowed;
    if events == [] {
      StartOwned();
    } else {
      OwnersAlways(events[..|events| - 1]);
      OwnerStep(Reach(events[..|events| - 1]), events[|events| - 1]);
    }
  }

  lemma StartOwned()
    ensures OwnerInv(START)
  {
  }

  /** At most one process, living or dead, claims the lease at any time, whatever the power does:
      a lease that a power loss brings back is claimed by the process that made it. */
  lemma OneOwner(events: seq<Event>, p: Process, q: Process)
    requires Legal(events)
    requires Claims(PhaseOf(Reach(events), p)) && Claims(PhaseOf(Reach(events), q))
    ensures p == q
  {
    OwnersAlways(events);
    OnlyHolder(Reach(events), p, q);
  }

  /** In every run, a release changes the state only if its token is the standing lease's; a
      token that was never granted or is spent is not, and what the client protocol lets
      through is the owner's own. */
  lemma WrongToken(events: seq<Event>, p: Process, token: Name)
    requires Legal(events)
    ensures var (s, t) := (Reach(events), After(Reach(events), Release(p, token)));
      && (token in s.spent || token !in s.ages ==> !OwnedBy(s.disk.lease, token))
      && (!OwnedBy(s.disk.lease, token) ==> t == s && (Alive(s, p) ==> Allowed(s, Release(p, token))))
      && (Allowed(s, Release(p, token)) && t != s ==> PhaseOf(s, p) == Holding(token, Resting))
      && (PhaseOf(s, p) == Holding(token, Resting) ==> t == Become(s, p, Releasing(token)) != s)
  {
    OwnersAlways(events);
    hide Reach, Legal;
  }

  // ----- when an ended lease is over for good -----

  /** The lease is over, and no power loss can bring it back. */
  predicate Buried(s: System, token: Name) {
    token in s.spent && forall lease :: lease in s.disk.leases ==> !OwnedBy(lease, token)
  }

  lemma BuriedStep(s: System, e: Event, token: Name)
    requires OwnerInv(s) && Allowed(s, e) && Buried(s, token)
    ensures Buried(After(s, e), token)
  {
    if e.Proceed? {
      AdvanceKeepsLease(s.disk, e.p, s.procs[e.p].job, e.content);
      hide Advance, LeaseSound;
    } else {
      hide Advance, Verified, Survives;
    }
  }

  lemma {:induction false} BuriedForGood(events: seq<Event>, more: seq<Event>, token: Name)
    requires Legal(events + more) && Buried(Reach(events), token)
    ensures Buried(Reach(events + more), token)
  {
    hide OwnerInv, After, Allowed, Buried;
    if more == [] {
      assert events + more == events;
    } else {
      var rest := more[..|more| - 1];
      assert (events + more)[..|events + more| - 1] == events + rest;
      BuriedForGood(events, rest, token);
      OwnersAlways(events + rest);
      BuriedStep(Reach(events + rest), more[|more| - 1], token);
    }
  }

  /** What every run keeps of the generations, even one whose power failures met unflushed saves. */
  predicate Sane(disk: Disk) { disk.settled <= disk.generations.Keys && disk.current in disk.possible }

  lemma SaneStep(s: System, e: Event)
    requires Sane(s.disk) && Allowed(s, e)
    ensures Sane(After(s, e).disk)
  {
    if e.Proceed? {
      AdvanceSane(s.disk, e.p, s.procs[e.p].job, e.content);
      hide Advance, Sane;
    } else {
      hide Advance, Verified, Survives;
    }
  }

  lemma AdvanceSane(disk: Disk, p: Process, job: Job, content: seq<Octet>)
    requires Sane(disk)
    ensures Sane(Advance(disk, p, job, content).0)
  {
    hide Verified, Filled;
  }

  lemma {:induction false} SaneAlways(events: seq<Event>)
    requires Legal(events)
    ensures Sane(Reach(events).disk)
  {
    hide Sane, After, Allowed;
    if events == [] {
      StartSane();
    } else {
      SaneAlways(events[..|events| - 1]);
      SaneStep(Reach(events[..|events| - 1]), events[|events| - 1]);
    }
  }

  lemma StartSane()
    ensures Sane(START.disk)
  {
  }

  /** All that is sure to be left of a generation. */
  function Remains(tree: Tree): Tree {
    Tree(map k | k in tree.files && FileDurable(tree, k) :: File(tree.files[k].value, true),
         if tree.manifest.Some? && tree.manifest.value.flushed && Top in tree.synced then tree.manifest else None,
         DIRECTORIES)
  }

  lemma AnyLeaseReturns(disk: Disk, lease: Option<Lease>) returns (after: Disk)
    requires Sane(disk) && lease in disk.leases
    ensures PowerLoss(disk, after) && after.lease == lease
  {
    var kept := if disk.generationsDurable then disk.settled else {};
    after := Leavings(disk, map id | id in kept :: Remains(disk.generations[id]), disk.current, lease);
    forall id | id in after.generations ensures Survives(disk.generations[id], after.generations[id]) {
      RemainsSurvive(disk.generations[id]);
    }
  }

  lemma RemainsSurvive(tree: Tree)
    ensures Survives(tree, Remains(tree))
  {
  }

  /** No legal continuation, with any power failures, ever accepts the token again. */
  ghost predicate RefusedForGood(events: seq<Event>, token: Name) {
    forall more :: Legal(events + more) ==> !OwnedBy(Reach(events + more).disk.lease, token)
  }

  /** The token of an ended lease is refused for good if and only if no lease that carries it is
      among those a power loss may bring back. */
  lemma EndedForGoodIff(events: seq<Event>, token: Name)
    requires Legal(events) && token in Reach(events).spent
    ensures RefusedForGood(events, token) <==> Buried(Reach(events), token)
  {
    hide Reach, Legal, Buried, After, OwnedBy, Allowed;
    if Buried(Reach(events), token) {
      forall more | Legal(events + more) ensures !OwnedBy(Reach(events + more).disk.lease, token) {
        BuriedForGood(events, more, token);
        OwnersAlways(events + more);
        BuriedRefused(Reach(events + more), token);
      }
    } else {
      var after := ReturnOf(events, token);
      assert !RefusedForGood(events, token);
    }
  }

  lemma BuriedRefused(s: System, token: Name)
    requires OwnerInv(s) && Buried(s, token)
    ensures !OwnedBy(s.disk.lease, token)
  {
  }

  lemma ReturnOf(events: seq<Event>, token: Name) returns (after: Disk)
    requires Legal(events) && token in Reach(events).spent && !Buried(Reach(events), token)
    ensures Legal(events + [LosePower(after)]) && OwnedBy(Reach(events + [LosePower(after)]).disk.lease, token)
  {
    var lease :| lease in Reach(events).disk.leases && OwnedBy(lease, token);
    SaneAlways(events);
    after := AnyLeaseReturns(Reach(events).disk, lease);
    assert (events + [LosePower(after)])[..|events|] == events;
    hide PowerLoss;
  }

  /** Right after its release has removed it, a lease can still come back. */
  lemma RemovedCanReturn(s: System, p: Process)
    requires OwnerInv(s) && PhaseOf(s, p).Leaving? && PhaseOf(s, p).flush
    ensures var (t, token) := (After(s, RemoveLease(p)), PhaseOf(s, p).token);
      token in t.spent && !OwnedBy(t.disk.lease, token) && !Buried(t, token)
  {
    assert Some(Lease(p, Some(PhaseOf(s, p).token))) in s.disk.leases;
  }

  predicate FlushesRoot(s: System, e: Event) {
    (e.FlushOwner? && PhaseOf(s, e.p).Recording?) || (e.FlushRoot? && PhaseOf(s, e.p).Settling?)
    || (e.Proceed? && PhaseOf(s, e.p).Holding? && PhaseOf(s, e.p).job.Pointing? && PhaseOf(s, e.p).job.step.SyncRoot?)
  }

  /** Whoever flushes the root next, for whatever reason, ends all removed leases for good. */
  lemma FlushBuries(s: System, e: Event, token: Name)
    requires OwnerInv(s) && Allowed(s, e) && FlushesRoot(s, e) && token in s.spent
    ensures Buried(After(s, e), token)
  {
    hide LeaseInv;
  }

  // ----- history -----

  /** Whenever a publish replaces the pointer, the pointer still names the parent recorded in
      the new generation, however long ago the check was. */
  lemma PublishReplacesParent(s: System, e: Event)
    requires Inv(s) && AtReplace(s, e) && PhaseOf(s, e.p).job.origin.Some?
    ensures var plan := PhaseOf(s, e.p).job.origin.value;
      && plan.id in s.disk.generations && ParentOf(s.disk.generations[plan.id]) == plan.parent
      && s.disk.current == (match plan.parent case None => None case Some(id) => Some(Pointer.Names(id)))
      && After(s, e).disk.current == Some(Pointer.Names(plan.id))
  {
    hide SavesInv, PointerInv, LeaseInv, Verified;
  }

  /** The saves a generation descends from, down to its seed. */
  ghost function Ancestry(disk: Disk, ages: map<Name, nat>, id: Name): (line: seq<Name>)
    requires SavesInv(disk, ages) && id in disk.generations
    ensures line != [] && line[0] == id && forall i :: 0 <= i < |line| ==> line[i] in disk.generations
    ensures forall i :: 0 <= i < |line| - 1 ==> ParentOf(disk.generations[line[i]]) == Some(line[i + 1])
    ensures ParentOf(disk.generations[line[|line| - 1]]) == None
    decreases ages[id]
  {
    assert OlderParent(disk, ages, id);
    match ParentOf(disk.generations[id])
    case None => [id]
    case Some(parent) => [id] + Ancestry(disk, ages, parent)
  }

  /** Every recorded parent is a published save. */
  predicate ParentsPresent(disk: Disk) {
    forall id :: id in disk.generations && ParentOf(disk.generations[id]).Some? ==>
      ParentOf(disk.generations[id]).value in disk.generations
  }

  /** On a workspace whose `generations` is flushed, no power loss can part a save from its
      parent if and only if the entries of all recorded parents are flushed. */
  lemma ParentsSurviveIff(disk: Disk, ages: map<Name, nat>)
    requires SavesInv(disk, ages) && PointerInv(disk) && LeaseSound(disk) && disk.generationsDurable
    ensures ParentsSettled(disk) <==> forall after :: PowerLoss(disk, after) ==> ParentsPresent(after)
  {
    if ParentsSettled(disk) {
      forall after | PowerLoss(disk, after) ensures ParentsPresent(after) {
        SurvivorsIntact(disk, after, ages);
        hide Survives, Whole, OlderParent;
      }
    } else {
      hide Sane;
      var id :| id in disk.generations && ParentOf(disk.generations[id]).Some?
        && ParentOf(disk.generations[id]).value !in disk.settled;
      var after := Orphaned(disk, ages, id);
      assert !ParentsPresent(after);
    }
  }

  /** The power loss that leaves a save without its parent. */
  lemma Orphaned(disk: Disk, ages: map<Name, nat>, id: Name) returns (after: Disk)
    requires SavesInv(disk, ages) && PointerInv(disk) && LeaseSound(disk) && disk.generationsDurable
    requires id in disk.generations && ParentOf(disk.generations[id]).Some?
    requires ParentOf(disk.generations[id]).value !in disk.settled
    ensures PowerLoss(disk, after) && id in after.generations && after.generations[id] == disk.generations[id]
    ensures ParentOf(disk.generations[id]).value !in after.generations
  {
    hide Verified;
    assert OlderParent(disk, ages, id);
    after := Leavings(disk, map g | g in disk.settled + {id} :: disk.generations[g], disk.current, disk.lease);
    forall g | g in after.generations ensures Survives(disk.generations[g], after.generations[g]) {
      assert Whole(disk.generations[g], g);
    }
  }

  /** In every run, each published save descends from a seed through published saves. */
  lemma EverySaveHasASeed(events: seq<Event>, id: Name) returns (line: seq<Name>)
    requires Legal(events) && Sheltered(events) && id in Reach(events).disk.generations
    ensures var saves := Reach(events).disk.generations;
      && line != [] && line[0] == id && (forall i :: 0 <= i < |line| ==> line[i] in saves)
      && (forall i :: 0 <= i < |line| - 1 ==> ParentOf(saves[line[i]]) == Some(line[i + 1]))
      && ParentOf(saves[line[|line| - 1]]) == None
  {
    ShelteredSafety(events);
    line := Ancestry(Reach(events).disk, Reach(events).ages, id);
  }
}
