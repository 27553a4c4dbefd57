/** The path of a portable update through all components, with no other writer and no fault. */
module EndToEnd {
  import opened Outcomes
  import opened Trees
  import opened FileStores
  import opened Manifests
  import opened Archives
  import opened Transactions
  import CrashSafety
  import opened Installations
  import opened Policies
  import opened Updaters
  import opened SafeJoins
  import opened SharedStatus

  /** No file stands above an owned path and no directory in its place. */
  predicate Unobstructed(plan: Plan, live: Tree) {
    forall k | 0 <= k < |plan.items| :: CanMake(live, plan.items[k]) && !IsDir(At(live, plan.items[k]))
  }

  lemma ArmedIsApplicable(plan: Plan, pre: Tree, d: Disk)
    requires Start(plan, pre, d) && !plan.bundle && VerifiedStage(plan, d.stage) && d.backup == Dir(map[])
    ensures Applicable(plan, d) <==> Unobstructed(plan, pre)
  {
    forall k | 0 <= k < |plan.items| ensures CanMake(d.backup, plan.items[k]) {
      var item := plan.items[k];
      forall i | 0 <= i < |item| ensures !IsFile(At(d.backup, item[..i])) {}
    }
    if Applicable(plan, d) {
      forall k | 0 <= k < |plan.items| ensures CanMake(pre, plan.items[k]) && !IsDir(At(pre, plan.items[k])) {
        assert BackUpPossible(d, plan.items[k]) && ReplacePossible(plan, d.live, plan.items[k]);
      }
    }
  }

  /** Arm and apply, in a fresh transaction directory. */
  method Install(plan: Plan, prepared: Tree, live: FileStore) returns (o: Outcome, ghost armed: Disk, ghost done: Disk)
    requires WellFormed(plan) && !plan.bundle && VerifiedStage(plan, prepared) && prepared.Dir? && live.reliable
    modifies live
    ensures o.Ok? <==> old(Unobstructed(plan, live.tree))
    ensures o.Ok? ==> Start(plan, old(live.tree), armed) && CrashSafety.Reaches(plan, armed, done)
    ensures o.Ok? ==> In(done, AwaitingConfirmation) && done.live == live.tree
    ensures !o.Ok? ==> AllOld(plan, old(live.tree), live.tree)
  {
    ghost var pre := live.tree;
    var stage := new FileStore(Dir(map[]), true);
    var backup := new FileStore(Dir(map[]), true);
    var installation := new Installation(plan, live, stage, backup, None, false, false);
    ghost var cleanup;
    o, cleanup := installation.Arm(prepared);
    armed := installation.Now();
    ArmedIsApplicable(plan, pre, armed);
    StartInv(plan, pre, armed);
    o := installation.Apply(pre);
    done := installation.Now();
  }

  lemma StageIsDirectory(plan: Plan, stage: Tree)
    requires WellFormed(plan) && VerifiedStage(plan, stage)
    ensures stage.Dir?
  {
    var path := FilePath(plan.files[0]);
    assert Matches(plan, plan.files[0], At(stage, path));
    if !plan.bundle { assert plan.items[0] == path; }
  }

  lemma RootStaysDirectory(plan: Plan, pre: Tree, armed: Disk, d: Disk)
    requires Start(plan, pre, armed) && CrashSafety.Reaches(plan, armed, d) && pre.Dir?
    ensures d.live.Dir?
  {
    StartInv(plan, pre, armed);
    CrashSafety.ReachesKeepsInv(Anyone, plan, pre, armed, d);
    assert KeptAll(pre, d.live, ItemSet(plan), []);
    assert At(pre, []) == Some(pre) && At(d.live, []) == Some(d.live);
  }

  /** Extract the archive, arm a transaction with the stage, apply it and inspect the result. The
      installation ends ready to restart exactly if the archive is good and nothing obstructs the
      owned paths; otherwise every item is as it was. */
  method Update<V(==)>(u: Updater<V>, release: Release<V>, a: Artifact, policy: InstallPolicy, macos: bool,
                       digest: Bytes -> string, entries: seq<ArchiveEntry>, live: FileStore,
                       follow: string -> Option<Node>)
    returns (r: Result<Status<V>>)
    requires Relevant(u, release) == Some(a) && ValidArtifact(a) && ValidPolicy(policy, a, macos)
    requires policy.layout.Portable?
    requires live.reliable && live.tree.Dir?
    modifies live
    ensures r == Success(ReadyToRestart(release.version)) || r.Failure?
    ensures r.Success? <==>
              && Extractable(entries, a.files, digest, u.maxUnpacked)
              && old(Unobstructed(PlanOf(policy, a, digest), live.tree))
    ensures r.Failure? ==> AllOld(PlanOf(policy, a, digest), old(live.tree), live.tree)
  {
    hide Extractable, Delivered, VerifiedStage, Unobstructed, WellFormed;
    var plan := PlanOf(policy, a, digest);
    ghost var pre := live.tree;
    ValidPlanIsWellFormed(policy, a, macos, digest);
    var prepared := new FileStore(Dir(map[]), true);
    var o; ghost var made, armed, done;
    o, made := Extract(prepared, entries, a.files, digest, u.maxUnpacked);
    if !o.Ok? { return Failure(Invalid); }
    DeliveredIsVerified(plan, entries, u.maxUnpacked, prepared.tree);
    StageIsDirectory(plan, prepared.tree);
    o, armed, done := Install(plan, prepared.tree, live);
    if !o.Ok? { return Failure(Recovery); }
    RootStaysDirectory(plan, pre, armed, done);
    ghost var idx;
    r, idx := Inspect(u, Present(0, Success(release)), Seen(live.tree), follow, digest, true);
    AppliedIsReady(u, release, a, policy, macos, digest, pre, armed, done, 0, r);
  }
}
