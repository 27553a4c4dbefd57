/** Which unfinished transactions recovery can bring to an end, and when that of a bundle is stuck. */
module BundleRecovery {
  import opened Outcomes
  import opened Paths
  import opened Trees
  import opened FileStores
  import opened Manifests
  import opened Inventories
  import opened Transactions
  import opened CrashSafety
  import opened Frames
  import opened Installations

  /** Some number of recovery attempts, each cut anywhere but the last, comes to an end. */
  ghost predicate Recoverable(plan: Plan, d: Disk) {
    exists d' :: ReachesBy(Recoverer, plan, d, d') && In(d', RolledBack)
  }

  /** Unfinished, and so it remains however often recovery is tried. */
  ghost predicate Stuck(plan: Plan, d: Disk) { d.journal.Some? && !Terminal(d) && !Recoverable(plan, d) }

  // ---------------------------------------------------------------------------
  // A directory in the place of an old file stays there

  /** The old item, a file, has been replaced by a directory. */
  predicate Jammed(d: Disk, item: Path) {
    && d.journal.Some? && item in d.journal.value.touched && item in d.journal.value.existing
    && IsFile(At(d.backup, item)) && IsDir(At(d.live, item))
  }

  lemma JammedRestore(plan: Plan, d: Disk, d': Disk, item: Path, other: Path)
    requires WellFormed(plan) && item in plan.items && Jammed(d, item) && Does(plan, Restore(other), d, d')
    ensures Jammed(d', item) && At(d'.live, item) == At(d.live, item) && In(d', RollingBack)
  {
    hide WellFormed, OnlyAt, OnlyWithin, PartOf;
    OtherItemsKept(plan, d.live, d'.live, other);
  }

  lemma JammedStep(plan: Plan, d: Disk, d': Disk, item: Path)
    requires WellFormed(plan) && item in plan.items && Jammed(d, item) && NextBy(Recoverer, plan, d, d')
    ensures Jammed(d', item) && At(d'.live, item) == At(d.live, item) && In(d', RollingBack)
  {
    hide Restoring, NextIsDue, WellFormed;
    var s :| MayTake(Recoverer, s) && Does(plan, s, d, d');
    if s.Restore? { JammedRestore(plan, d, d', item, s.item); }
  }

  /** Recovery leaves the directory as it is and never ends. */
  lemma {:induction false} JammedForever(plan: Plan, run: seq<Disk>, i: nat, item: Path)
    requires WellFormed(plan) && item in plan.items && IsRunBy(Recoverer, plan, run) && i < |run|
    requires Jammed(run[0], item) && !Terminal(run[0])
    ensures Jammed(run[i], item) && At(run[i].live, item) == At(run[0].live, item) && !Terminal(run[i])
  {
    hide NextBy, Jammed;
    if i == 0 {
    } else {
      JammedForever(plan, run, i - 1, item);
      assert NextBy(Recoverer, plan, run[i - 1], run[i - 1 + 1]);
      JammedStep(plan, run[i - 1], run[i], item);
    }
  }

  // ---------------------------------------------------------------------------
  // Otherwise there is a run that undoes everything

  /** One item undone: in one action or, where a directory must go first, in two. */
  lemma RestoresItem(plan: Plan, d0: Disk, d: Disk, item: Path) returns (d': Disk)
    requires ReachesBy(Recoverer, plan, d0, d) && In(d, RollingBack) && WellFormed(plan)
    requires item in plan.items && item in d.journal.value.touched
    requires Restorable(d.live, d.backup, d.journal.value, item)
    ensures ReachesBy(Recoverer, plan, d0, d') && d' == d.(live := d'.live) && OnlyAt(d.live, d'.live, item)
    ensures Restored(d', d.journal.value, item) && Restorable(d'.live, d'.backup, d.journal.value, item)
  {
    hide ReachesBy, Installed;
    var j := d.journal.value;
    d' := d;
    OnlyAtRefl(d.live, item);
    if At(d.live, item).Some? && !(item in j.existing && IsFile(At(d.backup, item))) {
      WithoutOnlyAt(d.live, item);
      d' := d.(live := Without(d.live, item));
      assert PartOf(None, At(d.live, item).value);
      ReachesStep(Recoverer, plan, d0, Restore(item), d, d');
      CanMakeStable(d.live, d'.live, item);
    }
    if item in j.existing {
      var x := At(d.backup, item).value;
      var t := d'.live;
      PutMakes(t, item, x);
      PutAt(t, item, x);
      PutOnlyAt(t, item, x);
      PartWhole(x);
      var last := d'.(live := Put(t, item, x).value);
      ReachesStep(Recoverer, plan, d0, Restore(item), d', last);
      CanMakeStable(t, last.live, item);
      OnlyAtTrans(d.live, t, last.live, item);
      d' := last;
    }
  }

  /** The touched items from the last down to number `i` undone. */
  lemma {:induction false} RestoresFrom(plan: Plan, d: Disk, i: nat) returns (d': Disk)
    requires WellFormed(plan) && In(d, RollingBack) && i <= |d.journal.value.touched|
    requires Undoable(plan, d.live, d.backup, d.journal.value)
    ensures ReachesBy(Recoverer, plan, d, d') && d' == d.(live := d'.live)
    ensures UndoneFrom(plan, d', d.journal.value, i)
    ensures Undoable(plan, d'.live, d.backup, d.journal.value)
    decreases |d.journal.value.touched| - i
  {
    hide ReachesBy, Restorable, Restored, OnlyAt;
    var j := d.journal.value;
    if i == |j.touched| {
      d' := d;
      ReachesSelf(Recoverer, plan, d);
    } else {
      var d1 := RestoresFrom(plan, d, i + 1);
      var item := j.touched[i];
      d' := RestoresItem(plan, d, d1, item);
      UndoneOneMore(plan, d1, d', j, i);
      UndoableKept(plan, d1.live, d'.live, d.backup, j, item);
    }
  }

  /** In every unfinished state of every run, recovery can come to its end if and only if nothing
      touched is beyond restoring, which one attempt already decides. */
  lemma RecoverableIff(plan: Plan, pre: Tree, d: Disk)
    requires Inv(plan, pre, d) && d.journal.Some? && !Terminal(d)
    ensures Recoverable(plan, d) <==> Undoable(plan, d.live, d.backup, d.journal.value)
  {
    if Undoable(plan, d.live, d.backup, d.journal.value) {
      EndsRolledBack(plan, d);
    } else if Recoverable(plan, d) {
      var item := JammedItem(plan, pre, d);
      var d' :| ReachesBy(Recoverer, plan, d, d') && In(d', RolledBack);
      var run :| IsRunBy(Recoverer, plan, run) && run[0] == d && run[|run| - 1] == d';
      JammedForever(plan, run, |run| - 1, item);
    }
  }

  lemma EndsRolledBack(plan: Plan, d: Disk)
    requires WellFormed(plan) && d.journal.Some? && !Terminal(d)
    requires Undoable(plan, d.live, d.backup, d.journal.value)
    ensures Recoverable(plan, d)
  {
    var j := d.journal.value.(state := RollingBack);
    var d1 := Save(d, j);
    UnfinishedRollsBack(plan, d, d.journal.value);
    assert Undoable(plan, d1.live, d1.backup, j) by {
      forall item | item in j.touched ensures Restorable(d1.live, d1.backup, j, item) {
        assert Restorable(d.live, d.backup, d.journal.value, item);
      }
    }
    var d2 := RestoresFrom(plan, d1, 0);
    UndoneAll(plan, d2, j);
    var d3 := Save(d2, j.(state := RolledBack));
    ReachesTrans(Recoverer, plan, d, d1, d2);
    ReachesStep(Recoverer, plan, d, EndRollback, d2, d3);
    assert In(d3, RolledBack);
  }

  lemma JammedItem(plan: Plan, pre: Tree, d: Disk) returns (item: Path)
    requires Inv(plan, pre, d) && d.journal.Some? && !Terminal(d)
    requires !Undoable(plan, d.live, d.backup, d.journal.value)
    ensures item in plan.items && Jammed(d, item)
  {
    RecoveryCompletes(plan, pre, d);
    item :| item in d.journal.value.touched && IsFile(At(pre, item)) && IsDir(At(d.live, item));
  }

  // ---------------------------------------------------------------------------
  // Bundles

  /** A staged bundle is a directory. */
  lemma StagedBundle(plan: Plan, stage: Tree)
    requires WellFormed(plan) && plan.bundle && VerifiedStage(plan, stage)
    ensures IsDir(At(stage, plan.items[0]))
  {
    assert Matches(plan, plan.files[0], At(stage, FilePath(plan.files[0])));
    if !IsDir(At(stage, plan.items[0])) { AtBeneath(stage, plan.items[0], FilePath(plan.files[0])); }
  }

  /** The run that gets stuck: the old file is captured and replaced by the new bundle. */
  lemma FileGetsStuck(plan: Plan, pre: Tree, d0: Disk) returns (d: Disk)
    requires Start(plan, pre, d0) && plan.bundle && IsFile(At(pre, plan.items[0]))
    ensures Reaches(plan, d0, d) && In(d, Applying) && Stuck(plan, d)
  {
    var item := plan.items[0];
    ExistingCanMake(pre, item);
    var d1 := Begin(plan, pre, d0);
    var d2 := TouchNext(plan, pre, d0, d1, 0);
    StagedBundle(plan, d0.stage);
    var x := At(d0.stage, item).value;
    assert item in plan.items && d2.journal.value.touched[0] == item;
    PutMakes(d2.live, item, x);
    PutAt(d2.live, item, x);
    PutOnlyAt(d2.live, item, x);
    d := d2.(live := Put(d2.live, item, x).value);
    ReachesStep(Anyone, plan, d0, Replace(item), d2, d);
    StartInv(plan, pre, d0);
    ReachesKeepsInv(Anyone, plan, pre, d0, d);
    assert !Restorable(d.live, d.backup, d.journal.value, item);
    RecoverableIff(plan, pre, d);
  }

  /** Some state of the update of a bundle is stuck if and only if the old item was a single file. */
  lemma StuckIff(plan: Plan, pre: Tree, d0: Disk)
    requires Start(plan, pre, d0) && plan.bundle
    ensures (exists d :: Reaches(plan, d0, d) && Stuck(plan, d)) <==> IsFile(At(pre, plan.items[0]))
  {
    if IsFile(At(pre, plan.items[0])) {
      var d := FileGetsStuck(plan, pre, d0);
    } else if d :| Reaches(plan, d0, d) && Stuck(plan, d) {
      StartInv(plan, pre, d0);
      ReachesKeepsInv(Anyone, plan, pre, d0, d);
      RecoveryCompletes(plan, pre, d);
      RecoverableIff(plan, pre, d);
    }
  }

  /** A file `A.app`, and a bundle of that name prepared to replace it. */
  lemma BundleScene() returns (plan: Plan, pre: Tree, d0: Disk)
    ensures Start(plan, pre, d0) && plan.bundle && plan.items == [["A.app"]] && IsFile(At(pre, ["A.app"]))
  {
    var name := "A.app";
    SplitNoSlash(name);
    SplitNoSlash("x");
    SplitAppend(name, "x");
    plan := Plan(true, [[name]], [PackageFile(name + "/" + "x", "", 0, true)], (b: Bytes) => "");
    assert FilePath(plan.files[0]) == [name, "x"];
    pre := Dir(map[name := File([], true)]);
    assert IsFile(At(pre, [name]));
    var stage := Dir(map[name := Dir(map["x" := File([], true)])]);
    StageOfX(plan, stage);
    d0 := Disk(pre, stage, Dir(map[]), Some(Journal(Prepared, [], {})));
  }

  lemma StageOfX(plan: Plan, stage: Tree)
    requires |plan.files| == 1 && FilePath(plan.files[0]) == ["A.app", "x"] && plan.files[0].size == 0
    requires plan.files[0].sha256 == "" && plan.digest([]) == ""
    requires stage == Dir(map["A.app" := Dir(map["x" := File([], true)])])
    ensures VerifiedStage(plan, stage)
  {
    var name, inner := "A.app", Dir(map["x" := File([], true)]);
    assert At(inner, ["x"]) == Some(File([], true)) && [name, "x"][1..] == ["x"];
    assert At(stage, [name, "x"]) == At(inner, [name, "x"][1..]);
    forall q: Path | FileAt(stage, q).Some? ensures Declared(plan, q) {
      OnlyX(name, q);
      assert FilePath(plan.files[0]) == q;
    }
  }

  /** A concrete program, the file `A.app`, whose update to a bundle gets stuck. */
  lemma ConcreteStuckBundle() returns (plan: Plan, pre: Tree, d0: Disk, d: Disk)
    ensures Start(plan, pre, d0) && plan.bundle && Reaches(plan, d0, d) && Stuck(plan, d)
  {
    hide VerifiedStage, Stuck;
    plan, pre, d0 := BundleScene();
    d := FileGetsStuck(plan, pre, d0);
  }

  lemma OnlyX(name: string, q: Path)
    requires FileAt(Dir(map[name := Dir(map["x" := File([], true)])]), q).Some?
    ensures q == [name, "x"]
  {
    var inner := Dir(map["x" := File([], true)]);
    assert q[0] == name && FileAt(inner, q[1..]).Some?;
    assert q[1..][0] == "x" && FileAt(File([], true), q[1..][1..]).Some?;
    assert q == [q[0]] + ([q[1..][0]] + q[1..][1..]);
  }
}
