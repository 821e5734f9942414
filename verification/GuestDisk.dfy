/**
 The files of one guest workspace (ncc/guest_workspace.py) and what a power loss leaves of
 them. File data reaches the disk when the file is flushed, a directory entry when its
 directory is; anything else may be lost or, for file data, replaced by arbitrary data.
 */
module GuestDisk {
  import opened Wrappers
  import opened Octets
  import opened Digests

  type Name = nat     // a hexadecimal identifier: of a generation, or a lease token
  type Process = nat

  const MEDIA := 7    // five files under host106, two under pdp11/images

  datatype Directory = Top | Host106 | Pdp11 | Images

  const DIRECTORIES: set<Directory> := {Top, Host106, Pdp11, Images}

  /** The directories whose entries lead to a medium. */
  function Chain(medium: nat): set<Directory> { if medium < 5 then {Top, Host106} else {Top, Pdp11, Images} }

  datatype File<T> = File(value: T, flushed: bool)

  datatype Identity = Identity(size: nat, digest: Digest)

  function IdentityOf(content: seq<Octet>): Identity { Identity(|content|, Sha256(content)) }

  /** Where a saved generation comes from: whether the run's path is absolute and whether the
      shutdown proof's digest is well formed, if they are given at all. */
  datatype Provenance = Provenance(resultIsAbsolute: Option<bool>, shutdownIsDigest: Option<bool>)

  datatype Manifest = Manifest(id: Name, parent: Option<Name>, provenance: Provenance, media: seq<Identity>)

  /** A generation's directory. */
  datatype Tree = Tree(files: map<nat, File<seq<Octet>>>, manifest: Option<File<Manifest>>, synced: set<Directory>)

  datatype Pointer = Names(id: Name) | Torn

  /** The lease directory a process made, and the token in its owner record, if there is one. */
  datatype Lease = Lease(maker: Process, owner: Option<Name>)

  /** `possible` are the pointers a power loss may bring back, `leases` the leases it may bring
      back, `records` what the directory of the standing lease may hold on disk. */
  datatype Disk = Disk(
    generationsExist: bool, generationsDurable: bool,
    pending: map<Name, Tree>, generations: map<Name, Tree>, settled: set<Name>,
    current: Option<Pointer>, possible: set<Option<Pointer>>,
    temporaries: map<Process, File<Name>>,
    lease: Option<Lease>, leases: set<Option<Lease>>, records: set<Lease>)

  // ----- writing a generation -----

  function WithFile(tree: Tree, medium: nat, content: seq<Octet>): Tree {
    tree.(files := tree.files[medium := File(content, false)], synced := tree.synced - Chain(medium))
  }

  function WithFlushed(tree: Tree, medium: nat): Tree
    requires medium in tree.files
  {
    tree.(files := tree.files[medium := tree.files[medium].(flushed := true)])
  }

  function WithManifest(tree: Tree, manifest: Manifest): Tree {
    tree.(manifest := Some(File(manifest, false)), synced := tree.synced - {Top})
  }

  // ----- checking a generation -----

  predicate SoundProvenance(manifest: Manifest) {
    match manifest.parent
    case None => manifest.provenance == Provenance(None, None)
    case Some(parent) => parent != manifest.id && manifest.provenance == Provenance(Some(true), Some(true))
  }

  predicate Verified(tree: Tree, id: Name) {
    && tree.manifest.Some?
    && var manifest := tree.manifest.value.value;
       && manifest.id == id && SoundProvenance(manifest) && |manifest.media| == MEDIA
       && forall k :: 0 <= k < MEDIA ==>
            manifest.media[k].size >= 1 && k in tree.files && manifest.media[k] == IdentityOf(tree.files[k].value)
  }

  /** Against the manifest of a generation that is accepted, another directory is accepted exactly
      when it is asked for under that name and holds the same seven media, byte for byte. */
  lemma TamperingShows(accepted: Tree, id: Name, other: Tree, asked: Name)
    requires Verified(accepted, id) && other.manifest == accepted.manifest
    ensures Verified(other, asked) <==>
      asked == id
      && forall k: nat :: k < MEDIA ==> k in other.files && other.files[k].value == accepted.files[k].value
    ensures Verified(other, asked) ==> forall k: nat :: k < MEDIA ==> other.files[k].value != []
  {
    var media := accepted.manifest.value.value.media;
    forall k: nat | k < MEDIA && k in other.files
      ensures media[k] == IdentityOf(other.files[k].value) <==> other.files[k].value == accepted.files[k].value
    {
      assert media[k] == IdentityOf(accepted.files[k].value);
    }
  }

  predicate Accepts(disk: Disk, id: Name) { id in disk.generations && Verified(disk.generations[id], id) }

  predicate Names?(disk: Disk, pointer: Option<Pointer>) {
    pointer.Some? ==> pointer.value.Names? && Accepts(disk, pointer.value.id)
  }

  /** current.json is absent or names a generation that verify_generation accepts. */
  predicate Safe(disk: Disk) { Names?(disk, disk.current) }

  // ----- the lease -----

  function Owners(lease: Option<Lease>): set<Name> {
    if lease.Some? && lease.value.owner.Some? then {lease.value.owner.value} else {}
  }

  predicate OwnedBy(lease: Option<Lease>, token: Name) { token in Owners(lease) }

  /** The lease directory is made, or its owner record is written or removed. */
  function WithLease(disk: Disk, lease: Lease): Disk {
    disk.(lease := Some(lease), leases := disk.leases + {Some(lease)}, records := disk.records + {lease})
  }

  function WithoutLease(disk: Disk): Disk {
    disk.(lease := None, leases := disk.leases + {None}, records := {})
  }

  /** The lease directory is flushed, but not yet its entry in the root. */
  function LeaseFlushed(disk: Disk): Disk {
    if disk.lease.Some? then disk.(records := {disk.lease.value}) else disk
  }

  predicate LeaseSound(disk: Disk) {
    && disk.lease in disk.leases
    && if disk.lease.None? then disk.records == {}
       else
         && disk.lease.value in disk.records
         && forall record :: record in disk.records ==>
              record.maker == disk.lease.value.maker && Some(record) in disk.leases
  }

  // ----- power loss -----

  predicate FileDurable(tree: Tree, medium: nat) {
    medium in tree.files && tree.files[medium].flushed && Chain(medium) <= tree.synced
  }

  predicate Survives(before: Tree, after: Tree) {
    && after.files.Keys <= before.files.Keys && after.synced == DIRECTORIES
    && (forall k :: k in after.files ==> after.files[k].flushed)
    && (forall k :: k in before.files && FileDurable(before, k) ==>
        k in after.files && after.files[k].value == before.files[k].value)
    && (after.manifest.Some? ==> before.manifest.Some? && after.manifest.value.flushed)
    && (before.manifest.Some? && before.manifest.value.flushed && Top in before.synced ==>
        after.manifest == before.manifest)
  }

  /** What a power loss may leave: every settled name with everything flushed below it, one of
      the pointers and one of the leases that stood since the root was last flushed, and any
      part of the rest. */
  predicate PowerLoss(before: Disk, after: Disk) {
    && after.generations.Keys <= before.generations.Keys && after.settled == after.generations.Keys
    && (before.generationsDurable ==> after.generationsExist)
    && (if after.generationsExist then before.settled <= after.generations.Keys
        else after.generations == map[] && after.pending == map[])
    && (forall id :: id in after.generations ==> Survives(before.generations[id], after.generations[id]))
    && after.pending.Keys <= before.pending.Keys + before.generations.Keys
    && after.generationsDurable == after.generationsExist
    && after.current in before.possible && after.possible == {after.current}
    && after.temporaries.Keys <= before.temporaries.Keys
    && after.lease in before.leases && after.leases == {after.lease}
    && after.records == (if after.lease.Some? then {after.lease.value} else {})
  }

  /** A tree all of whose data and entries have been flushed. */
  predicate Durable(tree: Tree) {
    && tree.synced == DIRECTORIES && (forall k :: k in tree.files ==> tree.files[k].flushed)
    && (tree.manifest.Some? ==> tree.manifest.value.flushed)
  }

  lemma DurableSurvives(before: Tree, after: Tree)
    requires Durable(before) && Survives(before, after)
    ensures before == after
  {
    forall k | k in before.files ensures k in after.files && after.files[k] == before.files[k] {
      assert FileDurable(before, k);
    }
    assert before.files == after.files;
  }
}
