/**
  Snapshot and revalidation of cleanup candidates, internal/cleanup/plan.go, and the planner's selection
  between them, internal/cleanup/planner.go. A file system is what lstat and EvalSymlinks answer.
 */
module CleanupPlan {
  import opened Common
  import opened CleanPaths

  datatype Kind = Symlink | Directory | File | Other

  /** os.FileMode: the type bits that matter here, and all the rest. */
  datatype Mode = Mode(symlink: bool, directory: bool, special: bool, bits: nat)

  function KindFromMode(m: Mode): Kind {
    if m.symlink then Symlink else if m.directory then Directory else if !m.special then File else Other
  }

  datatype Stat = Stat(device: nat, inode: nat, links: nat, uid: nat, gid: nat, diskBytes: int)

  datatype Info = Info(mode: Mode, size: int, modTime: int, stat: Stat)

  datatype FileSystem = FileSystem(lstat: string -> Option<Info>, evalSymlinks: string -> Option<string>)

  datatype Root = Root(path: string, realPath: string, device: nat, inode: nat, uid: nat, gid: nat)

  datatype Identity = Identity(
    path: string, realPath: string, rootPath: string, rootRealPath: string,
    kind: Kind, mode: Mode, logicalBytes: int, modTime: int, stat: Stat,
    rootDevice: nat, rootInode: nat, rootUid: nat, rootGid: nat)

  datatype SnapshotError = LstatFailed | RootIsSymlink | RealpathFailed | OutOfRoot

  // ---- Snapshots ----

  function SnapshotPlanRoot(fs: FileSystem, path: string): Result<Root, SnapshotError> {
    var info := fs.lstat(path);
    if info.None? then Err(LstatFailed)
    else if info.value.mode.symlink then Err(RootIsSymlink)
    else
      var resolved := fs.evalSymlinks(path);
      if resolved.None? then Err(RealpathFailed)
      else
        var stat := info.value.stat;
        Ok(Root(Clean(path), Clean(resolved.value), stat.device, stat.inode, stat.uid, stat.gid))
  }

  /** A symlink keeps its own cleaned path as its real path; anything else must resolve inside the root. */
  function RealPathInRoot(fs: FileSystem, path: string, info: Info, root: Root): Result<string, SnapshotError> {
    if info.mode.symlink then Ok(Clean(path))
    else
      var resolved := fs.evalSymlinks(path);
      if resolved.None? then Err(RealpathFailed)
      else if !PathContainedInRoot(Clean(resolved.value), root.realPath) then Err(OutOfRoot)
      else Ok(Clean(resolved.value))
  }

  function IdentityOf(path: string, realPath: string, info: Info, root: Root): Identity {
    Identity(
      Clean(path), realPath, root.path, root.realPath,
      KindFromMode(info.mode), info.mode, info.size, info.modTime, info.stat,
      root.device, root.inode, root.uid, root.gid)
  }

  function SnapshotCandidateIdentity(fs: FileSystem, path: string, rootPath: string): Result<Identity, SnapshotError> {
    var root := SnapshotPlanRoot(fs, rootPath);
    if root.Err? then Err(root.error)
    else
      var info := fs.lstat(path);
      if info.None? then Err(LstatFailed)
      else
        var resolved := RealPathInRoot(fs, path, info.value, root.value);
        if resolved.Err? then Err(resolved.error) else Ok(IdentityOf(path, resolved.value, info.value, root.value))
  }

  // ---- Revalidation ----

  datatype Refusal =
    | RootLstat | RootSymlink | RootOwnership | RootIdentityChanged | RootRealpath | RootRealpathChanged
    | CandidateLstat | CandidateSymlink | CandidateOwnership | CandidateRealpath | CandidateRealpathChanged
    | CandidateOutOfRoot | CandidateIdentityChanged

  /** The refusals so far, with one more if the condition holds. */
  function Add(refusals: seq<Refusal>, condition: bool, r: Refusal): seq<Refusal> {
    if condition then refusals + [r] else refusals
  }

  predicate IdentityMatches(saved: Identity, info: Info, realPath: string) {
    && Clean(saved.realPath) == Clean(realPath)
    && saved.kind == KindFromMode(info.mode)
    && saved.mode == info.mode
    && saved.logicalBytes == info.size
    && saved.modTime == info.modTime
    && saved.stat == info.stat
  }

  function CandidateRefusals(fs: FileSystem, saved: Identity, uid: nat, rootReal: string, before: seq<Refusal>)
    : seq<Refusal>
  {
    var info := fs.lstat(saved.path);
    if info.None? then before + [CandidateLstat]
    else if info.value.mode.symlink then before + [CandidateSymlink]
    else
      var stat, resolved := info.value.stat, fs.evalSymlinks(saved.path);
      var owned := Add(before, stat.uid != uid || stat.uid != saved.stat.uid, CandidateOwnership);
      if resolved.None? then owned + [CandidateRealpath]
      else ResolvedRefusals(saved, info.value, Clean(resolved.value), rootReal, owned)
  }

  function ResolvedRefusals(saved: Identity, info: Info, realPath: string, rootReal: string, before: seq<Refusal>)
    : seq<Refusal>
  {
    var moved := Add(before, realPath != Clean(saved.realPath), CandidateRealpathChanged);
    var outside := Add(moved, !PathContainedInRoot(realPath, rootReal), CandidateOutOfRoot);
    Add(outside, !IdentityMatches(saved, info, realPath), CandidateIdentityChanged)
  }

  function RootRefusals(saved: Identity, stat: Stat, uid: nat): seq<Refusal> {
    var owned := Add([], stat.uid != uid || stat.uid != saved.rootUid, RootOwnership);
    Add(owned, stat.device != saved.rootDevice || stat.inode != saved.rootInode, RootIdentityChanged)
  }

  function Refusals(fs: FileSystem, saved: Identity, uid: nat): seq<Refusal> {
    var info := fs.lstat(saved.rootPath);
    if info.None? then [RootLstat]
    else if info.value.mode.symlink then [RootSymlink]
    else
      var resolved, before := fs.evalSymlinks(saved.rootPath), RootRefusals(saved, info.value.stat, uid);
      if resolved.None? then before + [RootRealpath]
      else
        var moved := Add(before, Clean(resolved.value) != Clean(saved.rootRealPath), RootRealpathChanged);
        CandidateRefusals(fs, saved, uid, Clean(resolved.value), moved)
  }

  method RevalidateCandidate(fs: FileSystem, saved: Identity, uid: nat) returns (refusals: seq<Refusal>)
    ensures refusals == Refusals(fs, saved, uid)
  {
    refusals := [];
    var rootInfo := fs.lstat(saved.rootPath);
    if rootInfo.None? {
      return [RootLstat];
    }
    if rootInfo.value.mode.symlink {
      return [RootSymlink];
    }
    var rootStat := rootInfo.value.stat;
    if rootStat.uid != uid || rootStat.uid != saved.rootUid {
      refusals := refusals + [RootOwnership];
    }
    if rootStat.device != saved.rootDevice || rootStat.inode != saved.rootInode {
      refusals := refusals + [RootIdentityChanged];
    }
    var rootResolved := fs.evalSymlinks(saved.rootPath);
    if rootResolved.None? {
      return refusals + [RootRealpath];
    }
    var rootRealPath := Clean(rootResolved.value);
    if rootRealPath != Clean(saved.rootRealPath) {
      refusals := refusals + [RootRealpathChanged];
    }
    refusals := RevalidateInRoot(fs, saved, uid, rootRealPath, refusals);
  }

  /** The second half of RevalidateCandidate. */
  method RevalidateInRoot(fs: FileSystem, saved: Identity, uid: nat, rootRealPath: string, before: seq<Refusal>)
    returns (refusals: seq<Refusal>)
    ensures refusals == CandidateRefusals(fs, saved, uid, rootRealPath, before)
  {
    refusals := before;
    var info := fs.lstat(saved.path);
    if info.None? {
      return refusals + [CandidateLstat];
    }
    if info.value.mode.symlink {
      return refusals + [CandidateSymlink];
    }
    var current := info.value.stat;
    if current.uid != uid || current.uid != saved.stat.uid {
      refusals := refusals + [CandidateOwnership];
    }
    var resolved := fs.evalSymlinks(saved.path);
    if resolved.None? {
      return refusals + [CandidateRealpath];
    }
    var realPath := Clean(resolved.value);
    if realPath != Clean(saved.realPath) {
      refusals := refusals + [CandidateRealpathChanged];
    }
    if !PathContainedInRoot(realPath, rootRealPath) {
      refusals := refusals + [CandidateOutOfRoot];
    }
    if !IdentityMatches(saved, info.value, realPath) {
      refusals := refusals + [CandidateIdentityChanged];
    }
  }

  // ---- They are counterparts ----

  /** The refusals that have nothing to do with change: foreign owners, and a symlink. */
  function Standing(saved: Identity, uid: nat): seq<Refusal> {
    var root := Add([], saved.rootUid != uid, RootOwnership);
    if saved.kind == Symlink then root + [CandidateSymlink] else Add(root, saved.stat.uid != uid, CandidateOwnership)
  }

  /** Revalidated on the file system it was taken from, an identity meets only those. */
  lemma UnchangedMeetsNoChange(fs: FileSystem, path: string, rootPath: string, uid: nat)
    requires Clean(path) == path && Clean(rootPath) == rootPath
    requires SnapshotCandidateIdentity(fs, path, rootPath).Ok?
    ensures var saved := SnapshotCandidateIdentity(fs, path, rootPath).value;
      Refusals(fs, saved, uid) == Standing(saved, uid)
  {
    var saved := SnapshotCandidateIdentity(fs, path, rootPath).value;
    var root := SnapshotPlanRoot(fs, rootPath).value;
    CleanIdempotent(fs.evalSymlinks(rootPath).value);
    assert saved.rootPath == rootPath && saved.path == path && saved.rootRealPath == root.realPath;
    UnchangedCandidate(fs, path, saved, root, uid, Add([], saved.rootUid != uid, RootOwnership));
  }

  lemma UnchangedCandidate(fs: FileSystem, path: string, saved: Identity, root: Root, uid: nat, before: seq<Refusal>)
    requires Clean(path) == path && fs.lstat(path).Some?
    requires RealPathInRoot(fs, path, fs.lstat(path).value, root).Ok?
    requires saved == IdentityOf(path, RealPathInRoot(fs, path, fs.lstat(path).value, root).value,
      fs.lstat(path).value, root)
    ensures CandidateRefusals(fs, saved, uid, root.realPath, before)
      == if saved.kind == Symlink then before + [CandidateSymlink]
        else Add(before, saved.stat.uid != uid, CandidateOwnership)
  {
    if !saved.mode.symlink {
      CleanIdempotent(fs.evalSymlinks(path).value);
    }
  }

  /** The identity with its four paths in cleaned form, as every snapshot has them. */
  function Cleaned(i: Identity): Identity {
    i.(path := Clean(i.path), realPath := Clean(i.realPath),
       rootPath := Clean(i.rootPath), rootRealPath := Clean(i.rootRealPath))
  }

  /** A new snapshot differs from the saved identity at most in the root's group. */
  predicate SameButRootGid(again: Identity, saved: Identity) {
    again == Cleaned(saved).(rootGid := again.rootGid)
  }

  /** What an empty list of refusals means: a new snapshot is the saved one in every field but the
      root's group, neither is a symlink, and both belong to the current user. */
  ghost predicate StillTheSame(fs: FileSystem, saved: Identity, uid: nat) {
    var again := SnapshotCandidateIdentity(fs, saved.path, saved.rootPath);
    again.Ok? && SameButRootGid(again.value, saved) && again.value.kind != Symlink
    && again.value.stat.uid == uid && again.value.rootUid == uid
  }

  predicate RootTheSame(saved: Identity, root: Root, uid: nat) {
    && root.uid == uid == saved.rootUid && root.device == saved.rootDevice && root.inode == saved.rootInode
    && root.realPath == Clean(saved.rootRealPath)
  }

  lemma EarlierRefusalsStay(fs: FileSystem, saved: Identity, uid: nat, rootReal: string, before: seq<Refusal>)
    requires before != []
    ensures CandidateRefusals(fs, saved, uid, rootReal, before) != []
  {
  }

  lemma RootPartIsExact(fs: FileSystem, saved: Identity, uid: nat)
    ensures var root := SnapshotPlanRoot(fs, saved.rootPath);
      Refusals(fs, saved, uid) == [] <==>
        root.Ok? && RootTheSame(saved, root.value, uid)
          && CandidateRefusals(fs, saved, uid, root.value.realPath, []) == []
  {
    var root := SnapshotPlanRoot(fs, saved.rootPath);
    if root.Ok? {
      var info, realPath := fs.lstat(saved.rootPath).value, root.value.realPath;
      var before := RootRefusals(saved, info.stat, uid);
      var moved := Add(before, realPath != Clean(saved.rootRealPath), RootRealpathChanged);
      assert moved == [] <==> RootTheSame(saved, root.value, uid);
      assert Refusals(fs, saved, uid) == CandidateRefusals(fs, saved, uid, realPath, moved);
      if moved != [] {
        EarlierRefusalsStay(fs, saved, uid, realPath, moved);
      }
    }
  }

  lemma CandidatePartIsExact(fs: FileSystem, saved: Identity, uid: nat, root: Root)
    ensures CandidateRefusals(fs, saved, uid, root.realPath, []) == [] <==>
      && fs.lstat(saved.path).Some?
      && var info := fs.lstat(saved.path).value; var resolved := RealPathInRoot(fs, saved.path, info, root);
         && resolved.Ok? && !info.mode.symlink && info.stat.uid == uid
         && resolved.value == Clean(saved.realPath) && saved.kind == KindFromMode(info.mode)
         && saved.mode == info.mode && saved.logicalBytes == info.size && saved.modTime == info.modTime
           && saved.stat == info.stat
  {
    if fs.lstat(saved.path).Some? && fs.evalSymlinks(saved.path).Some? {
      CleanIdempotent(fs.evalSymlinks(saved.path).value);
    }
  }

  lemma NoRefusalIsExact(fs: FileSystem, saved: Identity, uid: nat)
    ensures Refusals(fs, saved, uid) == [] <==> StillTheSame(fs, saved, uid)
  {
    RootPartIsExact(fs, saved, uid);
    var root := SnapshotPlanRoot(fs, saved.rootPath);
    if root.Ok? {
      CandidatePartIsExact(fs, saved, uid, root.value);
    }
  }

  // ---- The planner's selection ----

  datatype Risk = SafeGenerated | ReviewOnly | OutOfScope

  datatype Policy = Policy(refuseSymlinkRoots: bool, refuseSymlinkCandidates: bool,
                           requireContainment: bool, userOwnedRoots: bool, userOwnedCandidates: bool)

  const DEFAULT_POLICY := Policy(true, true, true, true, true)

  datatype Spec = Spec(path: string, root: string, risk: Risk, selected: bool)

  datatype Candidate = Candidate(risk: Risk, defaultSelected: bool, selected: bool, identity: Identity)

  method NewPlannedCandidate(fs: FileSystem, categoryDefault: bool, spec: Spec, policy: Policy, uid: nat)
    returns (r: Result<Candidate, SnapshotError>)
    ensures r.Ok? <==> SnapshotCandidateIdentity(fs, spec.path, spec.root).Ok?
    ensures r.Ok? ==> Ok(r.value.identity) == SnapshotCandidateIdentity(fs, spec.path, spec.root)
    ensures r.Ok? ==>
      (r.value.selected <==> spec.selected && spec.risk == SafeGenerated && Cleanable(r.value.identity, policy, uid))
    ensures r.Ok? ==>
      (r.value.defaultSelected <==>
       categoryDefault && spec.risk == SafeGenerated && Cleanable(r.value.identity, policy, uid))
    ensures r.Ok? ==> r.value.risk == if Cleanable(r.value.identity, policy, uid) then spec.risk else ReviewOnly
  {
    var snapshot := SnapshotCandidateIdentity(fs, spec.path, spec.root);
    if snapshot.Err? {
      return Err(snapshot.error);
    }
    var identity, risk := snapshot.value, spec.risk;
    var selected, defaultSelected := spec.selected && risk == SafeGenerated, categoryDefault && risk == SafeGenerated;
    if policy.refuseSymlinkCandidates && identity.kind == Symlink {
      risk, selected, defaultSelected := ReviewOnly, false, false;
    }
    if policy.userOwnedCandidates && identity.stat.uid != uid {
      risk, selected, defaultSelected := ReviewOnly, false, false;
    }
    if identity.kind == Other {
      risk, selected, defaultSelected := ReviewOnly, false, false;
    }
    return Ok(Candidate(risk, defaultSelected, selected, identity));
  }

  predicate Cleanable(i: Identity, policy: Policy, uid: nat) {
    && (policy.refuseSymlinkCandidates ==> i.kind != Symlink)
    && (policy.userOwnedCandidates ==> i.stat.uid == uid)
    && i.kind != Other
  }

  datatype RootError = NotAllowed | RootLstatFailed | RootSymlinkRefused | RootForeign | RootUnresolved | RootEscapes

  /** validateCleanupRoot for an absolute path; `allowed` is the dangerous-roots decision. */
  function ValidateCleanupRoot(fs: FileSystem, rootPath: string, allowed: bool, policy: Policy, uid: nat)
    : Result<string, RootError>
  {
    var path := Clean(rootPath);
    var info := fs.lstat(path);
    if !allowed then Err(NotAllowed)
    else if info.None? then Err(RootLstatFailed)
    else if policy.refuseSymlinkRoots && info.value.mode.symlink then Err(RootSymlinkRefused)
    else if policy.userOwnedRoots && info.value.stat.uid != uid then Err(RootForeign)
    else if policy.requireContainment then
      var resolved := fs.evalSymlinks(path);
      if resolved.None? then Err(RootUnresolved)
      else if !PathContainedInRoot(Clean(resolved.value), path) then Err(RootEscapes)
      else Ok(path)
    else Ok(path)
  }

  /** Every candidate that the planner selects under a validated root revalidates without refusal as
      long as nothing changes, and is a file or directory. */
  lemma SelectedCandidatesRevalidate(fs: FileSystem, rootPath: string, spec: Spec, uid: nat)
    requires ValidateCleanupRoot(fs, rootPath, true, DEFAULT_POLICY, uid) == Ok(spec.root)
    requires Clean(spec.path) == spec.path
    requires SnapshotCandidateIdentity(fs, spec.path, spec.root).Ok?
    requires Cleanable(SnapshotCandidateIdentity(fs, spec.path, spec.root).value, DEFAULT_POLICY, uid)
    ensures var saved := SnapshotCandidateIdentity(fs, spec.path, spec.root).value;
      && Refusals(fs, saved, uid) == []
      && (saved.kind == File || saved.kind == Directory)
      && PathContainedInRoot(saved.realPath, saved.rootRealPath)
  {
    CleanIdempotent(rootPath);
    UnchangedMeetsNoChange(fs, spec.path, spec.root, uid);
  }
}
