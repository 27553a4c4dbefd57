/** What holds of whole runs of the install transaction, cut anywhere by crashes and continued
    by any number of recovery attempts. */
module CrashSafety {
  import opened Outcomes
  import opened Paths
  import opened Trees
  import opened Manifests
  import opened Transactions

  lemma {:induction false} RunKeepsInv(plan: Plan, pre: Tree, run: seq<Disk>, i: nat)
    requires IsRun(plan, run) && Inv(plan, pre, run[0]) && i < |run|
    ensures Inv(plan, pre, run[i])
  {
    if i == 0 {
    } else {
      RunKeepsInv(plan, pre, run, i - 1);
      assert NextBy(Anyone, plan, run[i - 1], run[i - 1 + 1]);
      var s :| MayTake(Anyone, s) && Does(plan, s, run[i - 1], run[i]);
      StepKeepsInv(plan, pre, s, run[i - 1], run[i]);
    }
  }

  /** Every declared file lies at or beneath an item. */
  lemma FilesBelongToItems(plan: Plan, i: nat)
    requires WellFormed(plan) && i < |plan.files|
    ensures exists item :: item in plan.items && item <= FilePath(plan.files[i])
  {
    if plan.bundle {
      assert plan.items[0] in plan.items && plan.items[0] < FilePath(plan.files[i]);
    } else {
      assert plan.items[i] == FilePath(plan.files[i]) && plan.items[i] in plan.items;
    }
  }

  lemma AllNewMatches(plan: Plan, live: Tree, i: nat)
    requires WellFormed(plan) && AllNew(plan, live) && i < |plan.files|
    ensures Matches(plan, plan.files[i], At(live, FilePath(plan.files[i])))
  {
    FilesBelongToItems(plan, i);
    var item :| item in plan.items && item <= FilePath(plan.files[i]);
    assert Installed(plan, live, item);
  }

  /** Crash anywhere: whatever prefix of whatever run the disk has seen, a journal that says
      RolledBack sits beside exactly the old program (absent items absent), one that says
      Committed beside exactly the signed one, and no other regular file has changed. */
  lemma CrashAnywhere(plan: Plan, pre: Tree, run: seq<Disk>, i: nat)
    requires IsRun(plan, run) && Start(plan, pre, run[0]) && i < |run|
    ensures In(run[i], RolledBack) ==> forall item | item in plan.items :: At(run[i].live, item) == At(pre, item)
    ensures In(run[i], Committed) ==>
              && (forall k | 0 <= k < |plan.files| ::
                    Matches(plan, plan.files[k], At(run[i].live, FilePath(plan.files[k]))))
              && (forall item, q: Path | item in plan.items && item <= q && FileAt(run[i].live, q).Some? ::
                     Declared(plan, q))
    ensures forall q: Path | (forall item | item in plan.items :: !(item <= q)) ::
              FileAt(run[i].live, q) == FileAt(pre, q)
  {
    StartInv(plan, pre, run[0]);
    RunKeepsInv(plan, pre, run, i);
    if In(run[i], Committed) {
      forall k | 0 <= k < |plan.files|
        ensures Matches(plan, plan.files[k], At(run[i].live, FilePath(plan.files[k])))
      { AllNewMatches(plan, run[i].live, k); }
      forall item, q: Path | item in plan.items && item <= q && FileAt(run[i].live, q).Some? ensures Declared(plan, q) {
        assert Installed(plan, run[i].live, item);
      }
    }
    forall q: Path | forall item | item in plan.items :: !(item <= q)
      ensures FileAt(run[i].live, q) == FileAt(pre, q)
    { OtherFilesKept(pre, run[i].live, ItemSet(plan), q); }
  }

  /** `existing` is the set of the items that were there before the update. */
  ghost predicate ExistingExact(plan: Plan, pre: Tree, j: Journal) {
    forall item :: item in j.existing <==> item in plan.items && At(pre, item).Some?
  }

  ghost predicate AllBackedUp(pre: Tree, d: Disk, j: Journal) {
    forall item | item in j.existing :: At(d.backup, item) == At(pre, item)
  }

  /** Write-ahead: before a run is over, an item that differs from the old program is named in
      the journal on disk, and the journal then knows exactly which items existed and holds an
      equal backup of each. */
  lemma WriteAhead(plan: Plan, pre: Tree, run: seq<Disk>, i: nat, item: Path)
    requires IsRun(plan, run) && Start(plan, pre, run[0]) && i < |run|
    requires InAny(run[i], {Prepared, Applying, AwaitingConfirmation, RollingBack, RolledBack, Failed})
    requires item in plan.items && At(run[i].live, item) != At(pre, item)
    ensures item in run[i].journal.value.touched
    ensures ExistingExact(plan, pre, run[i].journal.value) && AllBackedUp(pre, run[i], run[i].journal.value)
  {
    StartInv(plan, pre, run[0]);
    RunKeepsInv(plan, pre, run, i);
  }

  predicate Unfinished(d: Disk) { InAny(d, {Applying, AwaitingConfirmation, RollingBack, Failed}) }

  lemma {:induction false} NeverApplied(plan: Plan, pre: Tree, run: seq<Disk>, i: nat)
    requires IsRun(plan, run) && Start(plan, pre, run[0]) && i < |run|
    requires forall h | 0 <= h <= i :: !In(run[h], Applying)
    ensures run[i].journal.Some? ==> run[i].journal.value.existing == {}
    ensures InAny(run[i], {Prepared, RollingBack, RolledBack, Failed}) || run[i].journal == None
  {
    if i == 0 {
    } else {
      NeverApplied(plan, pre, run, i - 1);
      assert NextBy(Anyone, plan, run[i - 1], run[i - 1 + 1]);
    }
  }

  lemma {:induction false} OnceApplied(plan: Plan, run: seq<Disk>, h: nat, i: nat)
    requires IsRun(plan, run) && h <= i < |run| && In(run[h], Applying)
    ensures run[i].journal.Some? ==>
              !In(run[i], Prepared) && run[i].journal.value.existing == run[h].journal.value.existing
  {
    if i == h {
    } else {
      OnceApplied(plan, run, h, i - 1);
      assert NextBy(Anyone, plan, run[i - 1], run[i - 1 + 1]);
    }
  }

  /** While a transaction is unfinished, `existing` is exact if and only if the transaction has been
      Applying, or there was nothing to record; each recorded item has an equal durable backup. */
  lemma ExistingIsExactIff(plan: Plan, pre: Tree, run: seq<Disk>, i: nat)
    requires IsRun(plan, run) && Start(plan, pre, run[0]) && i < |run| && Unfinished(run[i])
    ensures ExistingExact(plan, pre, run[i].journal.value)
            <==> (|| (exists h :: 0 <= h <= i && In(run[h], Applying))
                  || (forall item | item in plan.items :: At(pre, item) == None))
    ensures AllBackedUp(pre, run[i], run[i].journal.value)
  {
    hide NextBy, Does, WellFormed, OnlyWithin, VerifiedStage;
    StartInv(plan, pre, run[0]);
    RunKeepsInv(plan, pre, run, i);
    if h :| 0 <= h <= i && In(run[h], Applying) {
      RunKeepsInv(plan, pre, run, h);
      OnceApplied(plan, run, h, i);
    } else {
      NeverApplied(plan, pre, run, i);
      if ExistingExact(plan, pre, run[i].journal.value) {
        forall item | item in plan.items
          ensures At(pre, item) == None
        { assert item !in run[i].journal.value.existing; }
      }
    }
  }

  /** The set of existing items is not always exact: recovering a transaction that was never
      applied enters RollingBack with an empty set, although the program is there. Nothing is
      touched then, so nothing is restored from it. */
  lemma ExistingMayBeIncomplete() returns (plan: Plan, pre: Tree, run: seq<Disk>)
    ensures IsRun(plan, run) && Start(plan, pre, run[0]) && In(run[|run| - 1], RollingBack)
    ensures exists item :: item in plan.items && At(pre, item).Some? && item !in run[|run| - 1].journal.value.existing
  {
    var stage;
    plan, stage := OneFilePlan();
    pre := stage;
    var d0 := Disk(pre, stage, Dir(map[]), Some(Journal(Prepared, [], {})));
    var d1 := Save(d0, Journal(RollingBack, [], {}));
    run := [d0, d1];
    assert At(pre, ["app"]) == Some(File([], true)) && At(d0.backup, ["app"]) == None;
    assert MayTake(Anyone, BeginRollback(false)) && Does(plan, BeginRollback(false), d0, d1);
    assert NextBy(Anyone, plan, run[0], run[1]);
    assert ["app"] in plan.items;
  }

  /** A portable plan that owns the single file `app`, and a stage for it. */
  lemma OneFilePlan() returns (plan: Plan, stage: Tree)
    ensures WellFormed(plan) && !plan.bundle && plan.items == [["app"]] && plan.files[0].executable
    ensures stage == Dir(map["app" := File([], true)]) && VerifiedStage(plan, stage)
  {
    assert Split("app") == ["app"] by { SplitNoSlash("app"); }
    plan := Plan(false, [["app"]], [PackageFile("app", "", 0, true)], (b: Bytes) => "");
    stage := Dir(map["app" := File([], true)]);
    assert plan.items == seq(|plan.files|, i requires 0 <= i < |plan.files| => FilePath(plan.files[i]));
    assert At(stage, ["app"]) == Some(File([], true));
    forall q: Path | FileAt(stage, q).Some? ensures Declared(plan, q) {
      if |q| > 1 { AtBeneath(stage, ["app"], ["app"] + q[1..]); }
      assert q == ["app"];
      assert FilePath(plan.files[0]) == q;
    }
  }

  /** Wherever a run can be discarded, nothing that is lost is still needed: the program is
      entirely old or entirely new, never a mixture. */
  lemma DiscardIsSafe(plan: Plan, pre: Tree, run: seq<Disk>, i: nat, d': Disk)
    requires IsRun(plan, run) && Start(plan, pre, run[0]) && i < |run|
    requires Does(plan, Discard, run[i], d')
    ensures d'.live == run[i].live
    ensures if In(run[i], Committed) then AllNew(plan, d'.live) else AllOld(plan, pre, d'.live)
  {
    StartInv(plan, pre, run[0]);
    RunKeepsInv(plan, pre, run, i);
  }

  // ---------------------------------------------------------------------------
  // The journal's states over a run

  predicate Terminal(d: Disk) { d.journal == None || InAny(d, {RolledBack, Committed}) }

  lemma FinishedStep(plan: Plan, d: Disk, d': Disk)
    requires NextBy(Anyone, plan, d, d') && Terminal(d)
    ensures d'.live == d.live && (d'.journal == None || d'.journal == d.journal)
  {
    hide OnlyAt, Mid, PartOf, Shrunk, Restoring, NextIsDue, AllNew, CanMake;
  }

  /** A finished transaction is left only by discarding it, and no program file changes then. */
  lemma {:induction false} FinishedStays(plan: Plan, run: seq<Disk>, i: nat, j: nat)
    requires IsRun(plan, run) && i <= j < |run| && Terminal(run[i])
    ensures run[j].live == run[i].live
    ensures run[j].journal == None || run[j].journal == run[i].journal
  {
    hide NextBy;
    if i == j {
    } else {
      FinishedStays(plan, run, i, j - 1);
      assert NextBy(Anyone, plan, run[j - 1], run[j - 1 + 1]);
      FinishedStep(plan, run[j - 1], run[j]);
    }
  }

  predicate Follows(a: Option<InstallState>, b: Option<InstallState>) {
    || a == b
    || (a.Some? && b == None && a.value in {Prepared, RolledBack, Committed})
    || (a.Some? && b.Some? && match a.value
          case Prepared => b.value in {Applying, RollingBack}
          case Applying => b.value in {AwaitingConfirmation, RollingBack}
          case AwaitingConfirmation => b.value in {Committed, RollingBack, Failed}
          case RollingBack => b.value in {RolledBack, Failed}
          case Failed => b.value == RollingBack
          case RolledBack => false
          case Committed => false)
  }

  function StateOf(d: Disk): Option<InstallState> {
    if d.journal.Some? then Some(d.journal.value.state) else None
  }

  lemma StepFollows(plan: Plan, s: Step, d: Disk, d': Disk)
    requires Does(plan, s, d, d')
    ensures Follows(StateOf(d), StateOf(d'))
  {
  }

  /** A committed transaction was awaiting confirmation with every item installed, and from then
      on no program file has changed. */
  lemma {:induction false} CommittedWasAwaiting(plan: Plan, pre: Tree, run: seq<Disk>, i: nat) returns (j: nat)
    requires IsRun(plan, run) && Start(plan, pre, run[0]) && i < |run| && In(run[i], Committed)
    ensures j < i && In(run[j], AwaitingConfirmation) && AllNew(plan, run[j].live) && run[i].live == run[j].live
  {
    assert NextBy(Anyone, plan, run[i - 1], run[i - 1 + 1]);
    if In(run[i - 1], Committed) {
      j := CommittedWasAwaiting(plan, pre, run, i - 1);
    } else {
      j := i - 1;
      StartInv(plan, pre, run[0]);
      RunKeepsInv(plan, pre, run, j);
    }
  }

  // ---------------------------------------------------------------------------
  // Rollback alone, for any journal whatsoever, any number of recovery attempts one after the
  // other, each cut wherever it was

  /** The content an item has once the rollback of `d` is complete. */
  function Target(d: Disk, j: Journal, item: Path): Option<Tree> {
    if item !in j.touched then At(d.live, item)
    else if item in j.existing then At(d.backup, item)
    else None
  }

  /** What a rollback that has gone from `d` to `d'` has kept. */
  ghost predicate KeptByRollback(plan: Plan, d: Disk, d': Disk) {
    && d.journal.Some? && d'.journal.Some?
    && d'.journal.value == d.journal.value.(state := d'.journal.value.state)
    && d'.backup == d.backup
    && (forall item | item in plan.items && item !in d.journal.value.touched :: At(d'.live, item) == At(d.live, item))
    && OnlyWithin(d.live, d'.live, ItemSet(plan))
  }

  ghost predicate AllRestored(plan: Plan, d: Disk, j: Journal) {
    forall item | item in j.touched :: item in plan.items && Restored(d, j, item)
  }

  lemma RollbackStepKeeps(plan: Plan, d: Disk, d': Disk)
    requires WellFormed(plan) && NextBy(Recoverer, plan, d, d')
    ensures KeptByRollback(plan, d, d') && (In(d', RolledBack) ==> AllRestored(plan, d', d.journal.value))
  {
    hide Restoring, Installed;
    var s :| MayTake(Recoverer, s) && Does(plan, s, d, d');
    forall q: Path ensures KeptAll(d.live, d.live, ItemSet(plan), q) {}
    if s.Restore? { OtherItemsKept(plan, d.live, d'.live, s.item); }
  }

  /** No attempt loses a backup or an entry of the journal, or strays from the items. */
  lemma {:induction false} RollbackLosesNothing(plan: Plan, run: seq<Disk>, i: nat)
    requires WellFormed(plan) && IsRunBy(Recoverer, plan, run) && i < |run| && run[0].journal.Some?
    ensures KeptByRollback(plan, run[0], run[i])
    ensures i > 0 && In(run[i], RolledBack) ==> AllRestored(plan, run[i], run[0].journal.value)
  {
    hide NextBy, Restored;
    if i == 0 {
      forall q: Path ensures KeptAll(run[0].live, run[0].live, ItemSet(plan), q) {}
    } else {
      RollbackLosesNothing(plan, run, i - 1);
      assert NextBy(Recoverer, plan, run[i - 1], run[i - 1 + 1]);
      RollbackStepKeeps(plan, run[i - 1], run[i]);
      OnlyWithinTrans(run[0].live, run[i - 1].live, run[i].live, ItemSet(plan));
      if In(run[i], RolledBack) { RestoredBySame(plan, run[i], run[i - 1].journal.value, run[0].journal.value); }
    }
  }

  lemma RestoredBySame(plan: Plan, d: Disk, j: Journal, k: Journal)
    requires AllRestored(plan, d, j) && j.touched == k.touched && j.existing == k.existing
    ensures AllRestored(plan, d, k)
  {
  }

  /** Restartable rollback: however often it was interrupted and run again, a rollback that
      completes reaches the trees determined by the disk it first found. */
  lemma RollbackIsRestartable(plan: Plan, run: seq<Disk>)
    requires WellFormed(plan) && IsRunBy(Recoverer, plan, run) && |run| > 1 && run[0].journal.Some?
    requires In(run[|run| - 1], RolledBack)
    ensures forall item | item in plan.items ::
              At(run[|run| - 1].live, item) == Target(run[0], run[0].journal.value, item)
    ensures forall q: Path | (forall item | item in plan.items :: !(item <= q)) ::
              FileAt(run[|run| - 1].live, q) == FileAt(run[0].live, q)
  {
    var n := |run| - 1;
    RollbackLosesNothing(plan, run, n);
    forall item | item in plan.items ensures At(run[n].live, item) == Target(run[0], run[0].journal.value, item) {
      if item in run[0].journal.value.touched { assert Restored(run[n], run[0].journal.value, item); }
    }
    forall q: Path | forall item | item in plan.items :: !(item <= q)
      ensures FileAt(run[n].live, q) == FileAt(run[0].live, q)
    {
      OtherFilesKept(run[0].live, run[n].live, ItemSet(plan), q);
    }
  }

  // ---------------------------------------------------------------------------
  // Reachability, the form in which the methods of an installation promise to follow the protocol

  ghost predicate ReachesBy(a: Actor, plan: Plan, d: Disk, d': Disk) {
    exists run: seq<Disk> :: IsRunBy(a, plan, run) && run[0] == d && run[|run| - 1] == d'
  }

  ghost predicate Reaches(plan: Plan, d: Disk, d': Disk) { ReachesBy(Anyone, plan, d, d') }

  lemma ReachesSelf(a: Actor, plan: Plan, d: Disk)
    ensures ReachesBy(a, plan, d, d)
  {
    var run := [d];
    assert IsRunBy(a, plan, run) && run[0] == d && run[|run| - 1] == d;
  }

  lemma ReachesStep(a: Actor, plan: Plan, d0: Disk, s: Step, d: Disk, d': Disk)
    requires ReachesBy(a, plan, d0, d) && MayTake(a, s) && Does(plan, s, d, d')
    ensures ReachesBy(a, plan, d0, d')
  {
    var run :| IsRunBy(a, plan, run) && run[0] == d0 && run[|run| - 1] == d;
    var longer := run + [d'];
    forall i | 0 <= i < |longer| - 1 ensures NextBy(a, plan, longer[i], longer[i + 1]) {
      if i < |run| - 1 { assert NextBy(a, plan, run[i], run[i + 1]); }
    }
    assert IsRunBy(a, plan, longer) && longer[|longer| - 1] == d';
  }

  lemma ReachesTrans(a: Actor, plan: Plan, d0: Disk, d: Disk, d': Disk)
    requires ReachesBy(a, plan, d0, d) && ReachesBy(a, plan, d, d')
    ensures ReachesBy(a, plan, d0, d')
  {
    var r :| IsRunBy(a, plan, r) && r[0] == d0 && r[|r| - 1] == d;
    var s :| IsRunBy(a, plan, s) && s[0] == d && s[|s| - 1] == d';
    var run := r + s[1..];
    forall i | 0 <= i < |run| - 1 ensures NextBy(a, plan, run[i], run[i + 1]) {
      if i < |r| - 1 { assert NextBy(a, plan, r[i], r[i + 1]); }
      else { assert NextBy(a, plan, s[i - |r| + 1], s[i - |r| + 1 + 1]); }
    }
    assert IsRunBy(a, plan, run) && run[0] == d0 && run[|run| - 1] == d';
  }

  /** Whoever may take fewer steps reaches no more. */
  lemma ReachesWeaker(a: Actor, b: Actor, plan: Plan, d: Disk, d': Disk)
    requires ReachesBy(a, plan, d, d') && (a == Recoverer || a == b || b == Anyone)
    ensures ReachesBy(b, plan, d, d')
  {
    var run :| IsRunBy(a, plan, run) && run[0] == d && run[|run| - 1] == d';
    forall i | 0 <= i < |run| - 1 ensures NextBy(b, plan, run[i], run[i + 1]) {
      assert NextBy(a, plan, run[i], run[i + 1]);
      var s :| MayTake(a, s) && Does(plan, s, run[i], run[i + 1]);
      assert MayTake(b, s);
    }
    assert IsRunBy(b, plan, run);
  }

  lemma ReachesKeepsInv(a: Actor, plan: Plan, pre: Tree, d: Disk, d': Disk)
    requires Inv(plan, pre, d) && ReachesBy(a, plan, d, d')
    ensures Inv(plan, pre, d')
  {
    ReachesWeaker(a, Anyone, plan, d, d');
    var run :| IsRunBy(Anyone, plan, run) && run[0] == d && run[|run| - 1] == d';
    RunKeepsInv(plan, pre, run, |run| - 1);
  }

  /** Neither applying nor recovering ever commits, gives up or discards. */
  lemma {:induction false} ActsWithin(a: Actor, plan: Plan, run: seq<Disk>, i: nat)
    requires a != Anyone && IsRunBy(a, plan, run) && i < |run| && run[0].journal.Some?
    ensures run[i].journal.Some?
    ensures InAny(run[i], {Committed, Failed}) ==> In(run[0], run[i].journal.value.state)
    ensures a == Recoverer && i > 0 ==> InAny(run[i], {RollingBack, RolledBack})
  {
    if i == 0 {
    } else {
      ActsWithin(a, plan, run, i - 1);
      assert NextBy(a, plan, run[i - 1], run[i - 1 + 1]);
    }
  }

  lemma ReachesWithin(a: Actor, plan: Plan, d: Disk, d': Disk)
    requires a != Anyone && ReachesBy(a, plan, d, d') && d.journal.Some?
    ensures d'.journal.Some? && (InAny(d', {Committed, Failed}) ==> In(d, d'.journal.value.state))
  {
    var run :| IsRunBy(a, plan, run) && run[0] == d && run[|run| - 1] == d';
    ActsWithin(a, plan, run, |run| - 1);
  }
}
