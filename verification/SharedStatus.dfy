/** src/shared.rs: judging from the signed manifest whether a synchronized installation is ready. */
module SharedStatus {
  import opened Outcomes
  import opened Paths
  import opened Trees
  import opened FileStores
  import opened Manifests
  import opened Archives
  import opened Transactions
  import CrashSafety
  import opened Policies
  import opened Updaters
  import opened SafeJoins

  const MAX_PUBLISHED: int := 4 * 1024 * 1024

  datatype Status<V> = Unchanged | WaitingForFiles(version: V, pendingFiles: seq<string>) | ReadyToRestart(version: V)

  /** The published file: absent, unreadable, or of some size and with some verification result. */
  datatype Published<V> = Missing | Unreadable | Present(size: nat, verified: Result<Release<V>>)

  /** The file at a declared path, found by name beneath the root, has the signed size and hash. */
  predicate UpToDate(root: Node, f: PackageFile, digest: Bytes -> string) {
    match Lexical(root, FilePath(f))
    case Some(Plain(bytes, _)) => Intact(f, bytes, digest)
    case _ => false
  }

  predicate Joinable(root: Node, f: PackageFile) { CheckPath(f.path) && Clear(root, FilePath(f)) }

  /** The paths of the files that are not up to date, in the order of the manifest. */
  function Pending(root: Node, files: seq<PackageFile>, digest: Bytes -> string): (r: seq<string>)
    ensures r == [] <==> forall k | 0 <= k < |files| :: UpToDate(root, files[k], digest)
  {
    if files == [] then []
    else
      var n := |files| - 1;
      Pending(root, files[..n], digest) + if UpToDate(root, files[n], digest) then [] else [files[n].path]
  }

  /** The artifact to compare with, if the manifest concerns this installation. */
  function Relevant<V(==)>(u: Updater<V>, release: Release<V>): Option<Artifact> {
    if Suits(u, release) then FindArtifact(release.manifest.artifacts, u.target) else None
  }

  /** Which releases are compared with the installation, and which of their artifacts. */
  lemma RelevantIff<V(!new)>(u: Updater<V>, release: Release<V>)
    ensures forall a :: Relevant(u, release) == Some(a) <==>
              && release.manifest.product == u.product && release.manifest.channel == u.channel
              && u.less(u.currentVersion, release.version)
              && (u.prerelease(release.version) ==> u.channel != "stable")
              && var artifacts := release.manifest.artifacts;
                 exists k :: && 0 <= k < |artifacts| && artifacts[k] == a && a.target == u.target
                             && forall j | 0 <= j < k :: artifacts[j].target != u.target
    ensures Relevant(u, release) == None <==>
              || release.manifest.product != u.product || release.manifest.channel != u.channel
              || !u.less(u.currentVersion, release.version)
              || (u.prerelease(release.version) && u.channel == "stable")
              || forall a | a in release.manifest.artifacts :: a.target != u.target
  {
    FoundTarget(release.manifest.artifacts, u.target);
  }

  lemma UpToDateIff(root: Node, f: PackageFile, digest: Bytes -> string)
    ensures UpToDate(root, f, digest) <==>
              && Lexical(root, FilePath(f)).Some? && Lexical(root, FilePath(f)).value.Plain?
              && var bytes := Lexical(root, FilePath(f)).value.bytes;
                 |bytes| == f.size && SameButCase(digest(bytes), f.sha256)
  {
    if Lexical(root, FilePath(f)).Some? && Lexical(root, FilePath(f)).value.Plain? {
      IntactIff(f, Lexical(root, FilePath(f)).value.bytes, digest);
    }
  }

  /** The result of an inspection during which no file is locked. */
  ghost predicate Inspected<V>(u: Updater<V>, published: Published<V>, root: Node, digest: Bytes -> string,
                               r: Result<Status<V>>) {
    match published
    case Missing => r == Success(Unchanged)
    case Unreadable => r.Failure?
    case Present(size, verified) =>
      if size > MAX_PUBLISHED || verified.Failure? then r.Failure?
      else match Relevant(u, verified.value)
           case None => r == Success(Unchanged)
           case Some(a) =>
             var version := verified.value.version;
             if exists k | 0 <= k < |a.files| :: !Joinable(root, a.files[k]) then r.Failure?
             else if forall k | 0 <= k < |a.files| :: UpToDate(root, a.files[k], digest)
               then r == Success(ReadyToRestart(version))
             else r == Success(WaitingForFiles(version, Pending(root, a.files, digest)))
  }

  /** Which answer an undisturbed inspection gives. */
  lemma InspectedMeans<V(!new)>(u: Updater<V>, published: Published<V>, root: Node, digest: Bytes -> string,
                                r: Result<Status<V>>)
    requires Inspected(u, published, root, digest, r)
    ensures r.Failure? <==>
              || published.Unreadable?
              || (published.Present? && (published.size > 4_194_304 || published.verified.Failure?))
              || (published.Present? && Relevant(u, published.verified.value).Some? && exists f ::
                    f in Relevant(u, published.verified.value).value.files && !Joinable(root, f))
    ensures r == Success(Unchanged) <==>
              || published.Missing?
              || (published.Present? && published.size <= 4_194_304 && published.verified.Success?
                  && Relevant(u, published.verified.value) == None)
    ensures r.Success? && r.value.ReadyToRestart? ==> r.value.version == published.verified.value.version
    ensures r.Success? && !r.value.Unchanged? ==>
              (r.value.ReadyToRestart? <==> forall f | f in Relevant(u, published.verified.value).value.files ::
                 UpToDate(root, f, digest))
  {
    hide Joinable, UpToDate, Relevant;
    if published.Present? && published.verified.Success? && Relevant(u, published.verified.value).Some? {
      var files := Relevant(u, published.verified.value).value.files;
      if f :| f in files && !Joinable(root, f) {
        var k :| 0 <= k < |files| && files[k] == f;
        assert !Joinable(root, files[k]);
      }
    }
  }

  /** `inspect`. A file that cannot be read at the moment counts as pending; the verdict that the
      installation is ready is never given without every declared file being up to date. */
  method Inspect<V(==)>(u: Updater<V>, published: Published<V>, root: Node, follow: string -> Option<Node>,
                   digest: Bytes -> string, reliable: bool)
    returns (r: Result<Status<V>>, ghost idx: seq<nat>)
    requires root.Folder?
    ensures reliable ==> Inspected(u, published, root, digest, r)
    ensures r.Success? && r.value.ReadyToRestart? ==>
              && published.Present? && published.verified.Success? && Relevant(u, published.verified.value).Some?
              && forall k | 0 <= k < |Relevant(u, published.verified.value).value.files| ::
                   UpToDate(root, Relevant(u, published.verified.value).value.files[k], digest)
    ensures r.Success? && r.value.WaitingForFiles? ==>
              && published.Present? && published.verified.Success? && Relevant(u, published.verified.value).Some?
              && r.value.version == published.verified.value.version
              && var files, paths := Relevant(u, published.verified.value).value.files, r.value.pendingFiles;
                 && 0 < |idx| == |paths|
                 && (forall m | 0 <= m < |idx| :: idx[m] < |files| && paths[m] == files[idx[m]].path)
                 && (forall m, n | 0 <= m < n < |idx| :: idx[m] < idx[n])
                 && (forall k: nat | k < |files| && !UpToDate(root, files[k], digest) :: k in idx)
                 && (reliable ==> forall k | k in idx :: !UpToDate(root, files[k], digest))
  {
    idx := [];
    match published
    case Missing => return Success(Unchanged), idx;
    case Unreadable => return Failure(Io), idx;
    case Present(size, verified) =>
      if size > MAX_PUBLISHED { return Failure(SizeLimit), idx; }
      if verified.Failure? { return Failure(verified.error), idx; }
      var relevant := Relevant(u, verified.value);
      if relevant == None { return Success(Unchanged), idx; }
      var pending;
      pending, idx := PendingFiles(root, relevant.value.files, follow, digest, reliable);
      if pending.Failure? { return Failure(pending.error), idx; }
      if pending.value == [] { return Success(ReadyToRestart(verified.value.version)), idx; }
      return Success(WaitingForFiles(verified.value.version, pending.value)), idx;
  }

  /** `idx` numbers, in ascending order, those of the first `n` files whose paths are listed: all
      that are not up to date and, if `exact`, no others. */
  ghost predicate Numbers(idx: seq<nat>, root: Node, files: seq<PackageFile>, n: nat, digest: Bytes -> string,
                          paths: seq<string>, exact: bool)
    requires n <= |files|
  {
    && |idx| == |paths|
    && (forall m | 0 <= m < |idx| :: idx[m] < n && paths[m] == files[idx[m]].path)
    && (forall m, m' | 0 <= m < m' < |idx| :: idx[m] < idx[m'])
    && (forall k: nat | k < n && !UpToDate(root, files[k], digest) :: k in idx)
    && (exact ==> forall k: nat | k in idx && k < n :: !UpToDate(root, files[k], digest))
  }

  lemma NumbersOfNone(root: Node, files: seq<PackageFile>, digest: Bytes -> string, exact: bool)
    ensures Numbers([], root, files, 0, digest, [], exact)
  {
  }

  lemma NumbersMean(idx: seq<nat>, root: Node, files: seq<PackageFile>, digest: Bytes -> string,
                    paths: seq<string>, exact: bool)
    requires Numbers(idx, root, files, |files|, digest, paths, exact)
    ensures |idx| == |paths|
    ensures forall m | 0 <= m < |idx| :: idx[m] < |files| && paths[m] == files[idx[m]].path
    ensures forall m, n | 0 <= m < n < |idx| :: idx[m] < idx[n]
    ensures forall k: nat | k < |files| && !UpToDate(root, files[k], digest) :: k in idx
    ensures exact ==> forall k | k in idx :: !UpToDate(root, files[k], digest)
    ensures paths == [] ==> forall k | 0 <= k < |files| :: UpToDate(root, files[k], digest)
  {
    forall k | k in idx ensures k < |files| {
      var m :| 0 <= m < |idx| && idx[m] == k;
    }
  }

  lemma NumbersSkip(idx: seq<nat>, root: Node, files: seq<PackageFile>, i: nat, digest: Bytes -> string,
                    paths: seq<string>, exact: bool)
    requires i < |files| && Numbers(idx, root, files, i, digest, paths, exact) && UpToDate(root, files[i], digest)
    ensures Numbers(idx, root, files, i + 1, digest, paths, exact)
  {
    hide UpToDate;
    forall k: nat | k in idx && k < i + 1 ensures k < i {
      var m :| 0 <= m < |idx| && idx[m] == k;
    }
  }

  lemma NumbersMore(idx: seq<nat>, root: Node, files: seq<PackageFile>, i: nat, digest: Bytes -> string,
                    paths: seq<string>, exact: bool)
    requires i < |files| && Numbers(idx, root, files, i, digest, paths, exact)
    requires exact ==> !UpToDate(root, files[i], digest)
    ensures Numbers(idx + [i], root, files, i + 1, digest, paths + [files[i].path], exact)
  {
    hide UpToDate;
    assert forall k | k in idx + [i] :: k in idx || k == i;
  }

  method PendingFiles(root: Node, files: seq<PackageFile>, follow: string -> Option<Node>, digest: Bytes -> string,
                      reliable: bool)
    returns (r: Result<seq<string>>, ghost idx: seq<nat>)
    requires root.Folder?
    ensures reliable && r.Failure? ==> exists k :: 0 <= k < |files| && !Joinable(root, files[k])
    ensures r.Success? ==> forall k | 0 <= k < |files| :: Joinable(root, files[k])
    ensures r.Success? && r.value == [] ==> forall k | 0 <= k < |files| :: UpToDate(root, files[k], digest)
    ensures reliable && r.Success? ==> r.value == Pending(root, files, digest)
    ensures r.Success? ==>
              && |idx| == |r.value|
              && (forall m | 0 <= m < |idx| :: idx[m] < |files| && r.value[m] == files[idx[m]].path)
              && (forall m, n | 0 <= m < n < |idx| :: idx[m] < idx[n])
              && (forall k: nat | k < |files| && !UpToDate(root, files[k], digest) :: k in idx)
              && (reliable ==> forall k | k in idx :: !UpToDate(root, files[k], digest))
  {
    hide Joinable, UpToDate, Numbers;
    var pending: seq<string> := [];
    idx := [];
    NumbersOfNone(root, files, digest, reliable);
    var i := 0;
    while i < |files|
      invariant 0 <= i <= |files|
      invariant forall k | 0 <= k < i :: Joinable(root, files[k])
      invariant reliable ==> pending == Pending(root, files[..i], digest)
      invariant Numbers(idx, root, files, i, digest, pending, reliable)
    {
      var matches := FileMatches(root, files[i], follow, digest, reliable);
      if matches.Failure? { return Failure(matches.error), idx; }
      if matches.value {
        NumbersSkip(idx, root, files, i, digest, pending, reliable);
      } else {
        NumbersMore(idx, root, files, i, digest, pending, reliable);
        pending, idx := pending + [files[i].path], idx + [i];
      }
      assert files[..i + 1][..i] == files[..i];
      i := i + 1;
    }
    assert files[..i] == files;
    NumbersMean(idx, root, files, digest, pending, reliable);
    return Success(pending), idx;
  }

  /** The body of the loop for one declared file. */
  method FileMatches(root: Node, f: PackageFile, follow: string -> Option<Node>, digest: Bytes -> string,
                     reliable: bool)
    returns (r: Result<bool>)
    requires root.Folder?
    ensures r.Success? <==> Joinable(root, f)
    ensures r == Success(true) ==> UpToDate(root, f, digest)
    ensures reliable && r.Success? ==> r.value == UpToDate(root, f, digest)
  {
    var candidate := SafeJoin(root, f.path, follow);
    if candidate.Failure? { return Failure(candidate.error); }
    var locked := Fault(reliable);
    match Reach(root, candidate.value, follow)
    case Some(Plain(bytes, _)) =>
      return Success(|bytes| == f.size && locked.Ok? && Fold(digest(bytes)) == Fold(f.sha256));
    case _ => return Success(false);
  }

  // ---------------------------------------------------------------------------
  // End to end

  /** A tree without links, as the operating system sees it. */
  function Seen(t: Tree): Node {
    match t
    case File(bytes, executable) => Plain(bytes, executable)
    case Dir(entries) => Folder(map k | k in entries :: Seen(entries[k]))
  }

  lemma {:induction false} SeenAt(t: Tree, p: Path)
    ensures Lexical(Seen(t), p) == match At(t, p) case Some(x) => Some(Seen(x)) case None => None
    decreases |p|
  {
    if p == [] || t.File? || p[0] !in t.entries {
    } else {
      SeenAt(t.entries[p[0]], p[1..]);
    }
  }

  lemma SeenMatches(plan: Plan, t: Tree, f: PackageFile)
    requires CheckPath(f.path) && Matches(plan, f, At(t, FilePath(f)))
    ensures Joinable(Seen(t), f) && UpToDate(Seen(t), f, plan.digest)
  {
    var p := FilePath(f);
    SeenAt(t, p);
    forall i | 0 <= i < |p| ensures !IsLink(Seen(t), p[..i]) && !IsLeaf(Seen(t), p[..i]) {
      SeenAt(t, p[..i]);
      if IsFile(At(t, p[..i])) { AtBeneath(t, p[..i], p); }
    }
  }

  /** From the published archive to a running update: extract it, arm a transaction with that
      stage over the old program, and apply it. If `apply` reached confirmation, then whatever
      the old program was, inspecting the installation with the same signed manifest finds it
      ready to restart; and from any state in which the journal says Committed as well. */
  lemma AppliedIsReady<V>(u: Updater<V>, release: Release<V>, a: Artifact, policy: InstallPolicy, macos: bool,
                          digest: Bytes -> string,
                          pre: Tree, armed: Disk, d: Disk, size: nat, r: Result<Status<V>>)
    requires Relevant(u, release) == Some(a) && ValidArtifact(a) && ValidPolicy(policy, a, macos)
    requires Start(PlanOf(policy, a, digest), pre, armed) && CrashSafety.Reaches(PlanOf(policy, a, digest), armed, d)
    requires InAny(d, {AwaitingConfirmation, Committed}) && size <= MAX_PUBLISHED
    requires Inspected(u, Present(size, Success(release)), Seen(d.live), digest, r)
    ensures r == Success(ReadyToRestart(release.version))
  {
    var plan := PlanOf(policy, a, digest);
    StartInv(plan, pre, armed);
    CrashSafety.ReachesKeepsInv(Anyone, plan, pre, armed, d);
    NewIsUpToDate(plan, pre, d);
  }

  lemma NewIsUpToDate(plan: Plan, pre: Tree, d: Disk)
    requires Inv(plan, pre, d) && InAny(d, {AwaitingConfirmation, Committed}) && ValidInventory(plan.files)
    ensures forall k | 0 <= k < |plan.files| ::
              Joinable(Seen(d.live), plan.files[k]) && UpToDate(Seen(d.live), plan.files[k], plan.digest)
  {
    hide Installed, Joinable, UpToDate, Armed;
    forall k | 0 <= k < |plan.files|
      ensures Joinable(Seen(d.live), plan.files[k]) && UpToDate(Seen(d.live), plan.files[k], plan.digest)
    {
      CrashSafety.AllNewMatches(plan, d.live, k);
      SeenMatches(plan, d.live, plan.files[k]);
    }
  }
}
