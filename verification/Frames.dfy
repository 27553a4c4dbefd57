/** Exactly which files an update may change, over all runs of the transaction. */
module Frames {
  import opened Outcomes
  import opened Trees
  import opened FileStores
  import opened Manifests
  import opened Inventories
  import opened Transactions
  import opened CrashSafety

  /** Of the regular files, none but the items themselves differ. */
  ghost predicate ItemsOnly(plan: Plan, pre: Tree, live: Tree) {
    forall q: Path :: FileAt(live, q) != FileAt(pre, q) ==> q in plan.items
  }

  ghost predicate FileBeneath(t: Tree, p: Path) { exists q: Path :: p < q && FileAt(t, q).Some? }

  /** `apply` gets as far as item `k` and finds there a directory with a regular file in it: it
      captures all items first, which a file above any of them prevents, and stops at the first
      directory, which a file cannot replace. */
  ghost predicate Exposed(plan: Plan, pre: Tree, k: nat) {
    && k < |plan.items|
    && (forall item | item in plan.items :: CanMake(pre, item))
    && (forall j | 0 <= j < k :: !IsDir(At(pre, plan.items[j])))
    && FileBeneath(pre, plan.items[k])
  }

  ghost predicate NoDirs(plan: Plan, pre: Tree) { forall item | item in plan.items :: !IsDir(At(pre, item)) }

  // ---------------------------------------------------------------------------
  // What happens to directories that stand where files belong

  /** Old directories are whole while `apply` runs, and in part or whole while it is undone; none
      stands before the item touched last. */
  ghost predicate DirsKept(plan: Plan, pre: Tree, d: Disk, j: Journal) {
    && (forall item | item in plan.items && IsDir(At(pre, item)) ::
          if InAny(d, {Applying, AwaitingConfirmation}) then At(d.live, item) == At(pre, item)
          else PartOf(At(d.live, item), At(pre, item).value))
    && (forall k | 0 <= k < |j.touched| - 1 && k < |plan.items| :: !IsDir(At(pre, plan.items[k])))
  }

  ghost predicate DirsInv(plan: Plan, pre: Tree, d: Disk) {
    match d.journal
    case None => AllOld(plan, pre, d.live) || NoDirs(plan, pre)
    case Some(j) =>
      match j.state
      case Prepared => true
      case RolledBack => true
      case Committed => NoDirs(plan, pre)
      case _ => DirsKept(plan, pre, d, j)
  }

  lemma PartWhole(whole: Tree)
    ensures PartOf(Some(whole), whole)
  {
    CopyIsExactIffCovered(None, whole);
    OverlayIsMid(None, whole);
  }

  /** In a portable layout an installed item is a file. */
  lemma InstalledIsFile(plan: Plan, live: Tree, item: Path)
    requires WellFormed(plan) && !plan.bundle && item in plan.items && Installed(plan, live, item)
    ensures IsFile(At(live, item))
  {
    var k :| 0 <= k < |plan.items| && plan.items[k] == item;
    assert item == FilePath(plan.files[k]);
  }

  lemma DirsWhole(plan: Plan, pre: Tree, d: Disk)
    requires forall item | item in plan.items && IsDir(At(pre, item)) :: At(d.live, item) == At(pre, item)
    ensures forall item | item in plan.items && IsDir(At(pre, item)) :: PartOf(At(d.live, item), At(pre, item).value)
  {
    forall item | item in plan.items && IsDir(At(pre, item)) ensures PartOf(At(d.live, item), At(pre, item).value) {
      PartWhole(At(pre, item).value);
    }
  }

  /** The item touched last before the next one has been replaced, so it was no directory. */
  lemma DueIsNoDir(plan: Plan, pre: Tree, d: Disk, j: Journal)
    requires Inv(plan, pre, d) && !plan.bundle && In(d, Applying) && j == d.journal.value
    requires DirsKept(plan, pre, d, j) && NextIsDue(plan, d, j)
    ensures forall k | 0 <= k < |j.touched| && k < |plan.items| :: !IsDir(At(pre, plan.items[k]))
  {
    forall k | 0 <= k < |j.touched| && k < |plan.items| ensures !IsDir(At(pre, plan.items[k])) {
      assert j.touched[k] == plan.items[k] && plan.items[k] in j.touched;
      InstalledIsFile(plan, d.live, plan.items[k]);
    }
  }

  lemma RestoreKeepsDirs(plan: Plan, pre: Tree, item: Path, d: Disk, d': Disk)
    requires Inv(plan, pre, d) && DirsInv(plan, pre, d) && !plan.bundle && Does(plan, Restore(item), d, d')
    ensures DirsInv(plan, pre, d')
  {
    OtherItemsKept(plan, d.live, d'.live, item);
    if IsDir(At(pre, item)) && At(d.live, item).Some? && At(d'.live, item) != At(d.live, item) {
      PartTrans(At(pre, item).value, At(d.live, item).value, At(d'.live, item));
    }
  }

  lemma BeginRollbackKeepsDirs(plan: Plan, pre: Tree, intent: bool, d: Disk, d': Disk)
    requires Inv(plan, pre, d) && DirsInv(plan, pre, d) && !plan.bundle && Does(plan, BeginRollback(intent), d, d')
    ensures DirsInv(plan, pre, d')
  {
    hide WellFormed, OnlyWithin, Installed, PartOf;
    if InAny(d, {Prepared, Applying, AwaitingConfirmation}) { DirsWhole(plan, pre, d); }
    if intent { DueIsNoDir(plan, pre, d, d.journal.value); }
  }

  lemma AwaitingHasNoDirs(plan: Plan, pre: Tree, d: Disk)
    requires Inv(plan, pre, d) && DirsInv(plan, pre, d) && !plan.bundle && In(d, AwaitingConfirmation)
    ensures NoDirs(plan, pre)
  {
    forall item | item in plan.items ensures !IsDir(At(pre, item)) { InstalledIsFile(plan, d.live, item); }
  }

  lemma ReplaceKeepsDirs(plan: Plan, pre: Tree, item: Path, d: Disk, d': Disk)
    requires Inv(plan, pre, d) && DirsInv(plan, pre, d) && !plan.bundle && Does(plan, Replace(item), d, d')
    ensures DirsInv(plan, pre, d')
  {
    OtherItemsKept(plan, d.live, d'.live, item);
  }

  lemma TouchKeepsDirs(plan: Plan, pre: Tree, d: Disk, d': Disk)
    requires Inv(plan, pre, d) && DirsInv(plan, pre, d) && !plan.bundle && Does(plan, Touch, d, d')
    ensures DirsInv(plan, pre, d')
  {
    DueIsNoDir(plan, pre, d, d.journal.value);
  }

  lemma FailKeepsDirs(plan: Plan, pre: Tree, d: Disk, d': Disk)
    requires Inv(plan, pre, d) && DirsInv(plan, pre, d) && !plan.bundle && Does(plan, Fail, d, d')
    ensures DirsInv(plan, pre, d')
  {
    hide WellFormed, OnlyWithin, Installed, PartOf;
    if In(d, AwaitingConfirmation) { DirsWhole(plan, pre, d); }
  }

  lemma OtherKeepsDirs(plan: Plan, pre: Tree, s: Step, d: Disk, d': Disk)
    requires Inv(plan, pre, d) && DirsInv(plan, pre, d) && !plan.bundle && Does(plan, s, d, d')
    requires s.BackUp? || s.BeginApplying? || s.Await? || s.EndRollback? || s.Discard?
    ensures DirsInv(plan, pre, d')
  {
  }

  lemma StepKeepsDirs(plan: Plan, pre: Tree, s: Step, d: Disk, d': Disk)
    requires Inv(plan, pre, d) && DirsInv(plan, pre, d) && !plan.bundle && Does(plan, s, d, d')
    ensures DirsInv(plan, pre, d')
  {
    match s
    case Touch => TouchKeepsDirs(plan, pre, d, d');
    case Replace(item) => ReplaceKeepsDirs(plan, pre, item, d, d');
    case Restore(item) => RestoreKeepsDirs(plan, pre, item, d, d');
    case BeginRollback(intent) => BeginRollbackKeepsDirs(plan, pre, intent, d, d');
    case Commit => AwaitingHasNoDirs(plan, pre, d);
    case Fail => FailKeepsDirs(plan, pre, d, d');
    case _ => OtherKeepsDirs(plan, pre, s, d, d');
  }

  lemma {:induction false} RunKeepsDirs(plan: Plan, pre: Tree, run: seq<Disk>, i: nat)
    requires IsRun(plan, run) && Start(plan, pre, run[0]) && !plan.bundle && i < |run|
    ensures Inv(plan, pre, run[i]) && DirsInv(plan, pre, run[i])
  {
    StartInv(plan, pre, run[0]);
    if i == 0 {
    } else {
      RunKeepsDirs(plan, pre, run, i - 1);
      assert NextBy(Anyone, plan, run[i - 1], run[i - 1 + 1]);
      var s :| MayTake(Anyone, s) && Does(plan, s, run[i - 1], run[i]);
      StepKeepsInv(plan, pre, s, run[i - 1], run[i]);
      StepKeepsDirs(plan, pre, s, run[i - 1], run[i]);
    }
  }

  // ---------------------------------------------------------------------------
  // Only an exposed directory lets other files change

  lemma {:induction false} PartFiles(whole: Tree, part: Tree, r: Path)
    requires PartOf(Some(part), whole) && FileAt(part, r).Some?
    ensures FileAt(whole, r) == FileAt(part, r)
    decreases |r|
  {
    if r == [] {
    } else {
      PartFiles(whole.entries[r[0]], part.entries[r[0]], r[1..]);
    }
  }

  lemma SameBeneath(t: Tree, t': Tree, item: Path, q: Path)
    requires item <= q && At(t', item) == At(t, item)
    ensures At(t', q) == At(t, q)
  {
    assert q == item + q[|item|..];
    AtAppend(t, item, q[|item|..]);
    AtAppend(t', item, q[|item|..]);
  }

  /** A file beneath an item differs only where a touched directory has been removed or partly put back. */
  lemma ChangedBeneath(plan: Plan, pre: Tree, d: Disk, item: Path, q: Path)
    requires Inv(plan, pre, d) && DirsInv(plan, pre, d) && !plan.bundle
    requires item in plan.items && item < q && FileAt(d.live, q) != FileAt(pre, q)
    ensures d.journal.Some? && item in d.journal.value.touched && Armed(plan, pre, d, d.journal.value)
    ensures DirsKept(plan, pre, d, d.journal.value)
    ensures FileAt(pre, q).Some?
  {
    if At(d.live, item) == At(pre, item) { SameBeneath(pre, d.live, item, q); }
    if !IsDir(At(pre, item)) { AtBeneath(pre, item, q); }
    if !IsDir(At(d.live, item)) { AtBeneath(d.live, item, q); }
    if Installed(plan, d.live, item) { InstalledIsFile(plan, d.live, item); }
    if FileAt(d.live, q).Some? && PartOf(At(d.live, item), At(pre, item).value) {
      var r := q[|item|..];
      assert q == item + r;
      AtAppend(pre, item, r);
      AtAppend(d.live, item, r);
      PartFiles(At(pre, item).value, At(d.live, item).value, r);
    }
  }

  lemma ChangedMeansExposed(plan: Plan, pre: Tree, d: Disk, q: Path) returns (k: nat)
    requires Inv(plan, pre, d) && DirsInv(plan, pre, d) && !plan.bundle
    requires FileAt(d.live, q) != FileAt(pre, q) && q !in plan.items
    ensures Exposed(plan, pre, k) && plan.items[k] < q
  {
    if forall item | item in ItemSet(plan) :: !(item <= q) { OtherFilesKept(pre, d.live, ItemSet(plan), q); }
    var item :| item in ItemSet(plan) && item <= q;
    assert |item| == |q| ==> item == q;
    ChangedBeneath(plan, pre, d, item, q);
    var j := d.journal.value;
    k :| 0 <= k < |j.touched| && j.touched[k] == item;
    assert j.touched[k] == plan.items[k];
    forall i | 0 <= i < k ensures !IsDir(At(pre, plan.items[i])) {}
    assert FileBeneath(pre, item);
  }

  // ---------------------------------------------------------------------------
  // An exposed directory is lost when the rollback it causes is cut short

  /** The first `i` items have been captured. */
  ghost predicate Captured(plan: Plan, pre: Tree, d0: Disk, d: Disk, i: nat) {
    && i <= |plan.items| && Reaches(plan, d0, d) && d == d0.(backup := d.backup)
    && (forall j | 0 <= j < i && At(pre, plan.items[j]).Some? :: At(d.backup, plan.items[j]) == At(pre, plan.items[j]))
    && (forall j | i <= j < |plan.items| :: At(d.backup, plan.items[j]) == None)
    && (forall item | item in plan.items :: CanMake(d.backup, item))
  }

  lemma CaptureNext(plan: Plan, pre: Tree, d0: Disk, d: Disk, i: nat) returns (d': Disk)
    requires Start(plan, pre, d0) && i < |plan.items| && Captured(plan, pre, d0, d, i)
    ensures Captured(plan, pre, d0, d', i + 1)
  {
    var item := plan.items[i];
    assert item in plan.items;
    if At(pre, item) == None { return d; }
    var x := At(pre, item).value;
    var w := Placed(item, x);
    PutMakes(d.backup, item, x);
    PutAt(d.backup, item, x);
    PutOnlyAt(d.backup, item, x);
    d' := d.(backup := Put(d.backup, item, x).value);
    PartWhole(x);
    ReachesStep(Anyone, plan, d0, BackUp(item), d, d');
    OtherItemsKept(plan, d.backup, d'.backup, item);
    forall other | other in plan.items ensures CanMake(d'.backup, other) {
      if other == item { CanMakeStable(d.backup, d'.backup, item); } else { CanMakeAfter(d.backup, w, other); }
    }
  }

  lemma {:induction false} CaptureAll(plan: Plan, pre: Tree, d0: Disk, i: nat) returns (d: Disk)
    requires Start(plan, pre, d0) && i <= |plan.items|
    ensures Captured(plan, pre, d0, d, i)
    decreases i
  {
    if i == 0 {
      d := d0;
      ReachesSelf(Anyone, plan, d0);
    } else {
      d := CaptureAll(plan, pre, d0, i - 1);
      d := CaptureNext(plan, pre, d0, d, i - 1);
    }
  }

  /** The first `i` items have been replaced. */
  ghost predicate Replaced(plan: Plan, pre: Tree, d0: Disk, d: Disk, i: nat) {
    && i <= |plan.items| && Reaches(plan, d0, d) && In(d, Applying) && d.stage == d0.stage
    && d.journal.value.touched == plan.items[..i]
    && (forall item :: item in d.journal.value.existing <==> item in plan.items && At(pre, item).Some?)
    && (forall j | 0 <= j < i :: Installed(plan, d.live, plan.items[j]))
    && (forall j | i <= j < |plan.items| :: At(d.live, plan.items[j]) == At(pre, plan.items[j]))
    && (forall item | item in plan.items :: CanMake(d.live, item))
  }

  lemma CapturedMayBegin(plan: Plan, pre: Tree, d0: Disk, d: Disk) returns (d': Disk)
    requires Start(plan, pre, d0) && (forall item | item in plan.items :: CanMake(pre, item))
    requires Captured(plan, pre, d0, d, |plan.items|)
    ensures Does(plan, BeginApplying, d, d') && d' == Save(d, d'.journal.value)
    ensures d'.journal.value.state == Applying && d'.journal.value.touched == []
    ensures forall item :: item in d'.journal.value.existing <==> item in plan.items && At(pre, item).Some?
  {
    hide ReachesBy, VerifiedStage;
    var present := set item | item in plan.items && At(d.live, item).Some?;
    d' := Save(d, d.journal.value.(state := Applying, existing := d.journal.value.existing + present));
    forall item | item in present ensures At(d.backup, item) == At(d.live, item) {
      var j :| 0 <= j < |plan.items| && plan.items[j] == item;
    }
  }

  lemma Begin(plan: Plan, pre: Tree, d0: Disk) returns (d: Disk)
    requires Start(plan, pre, d0) && forall item | item in plan.items :: CanMake(pre, item)
    ensures Replaced(plan, pre, d0, d, 0)
  {
    var d1 := CaptureAll(plan, pre, d0, |plan.items|);
    d := CapturedMayBegin(plan, pre, d0, d1);
    hide Does;
    ReachesStep(Anyone, plan, d0, BeginApplying, d1, d);
  }

  lemma ReplacedMayTouch(plan: Plan, pre: Tree, d0: Disk, d: Disk, i: nat)
    requires i < |plan.items| && Replaced(plan, pre, d0, d, i)
    ensures Does(plan, Touch, d, Save(d, Intended(plan, d.journal.value)))
  {
    forall item | item in d.journal.value.touched ensures Installed(plan, d.live, item) {
      var j :| 0 <= j < i && plan.items[j] == item;
    }
  }

  lemma TouchNext(plan: Plan, pre: Tree, d0: Disk, d: Disk, i: nat) returns (d': Disk)
    requires i < |plan.items| && Replaced(plan, pre, d0, d, i)
    ensures Reaches(plan, d0, d') && d' == Save(d, d.journal.value.(touched := plan.items[..i + 1]))
  {
    ReplacedMayTouch(plan, pre, d0, d, i);
    IntentNext(plan, d.journal.value, i);
    d' := Save(d, Intended(plan, d.journal.value));
    ReachesStep(Anyone, plan, d0, Touch, d, d');
  }

  lemma ReplaceOne(plan: Plan, pre: Tree, d0: Disk, d: Disk, i: nat) returns (d': Disk)
    requires Start(plan, pre, d0) && !plan.bundle && i < |plan.items| && Replaced(plan, pre, d0, d, i)
    requires !IsDir(At(pre, plan.items[i]))
    ensures Replaced(plan, pre, d0, d', i + 1)
  {
    var item := plan.items[i];
    var d1 := TouchNext(plan, pre, d0, d, i);
    assert item in plan.items && d1.journal.value.touched[i] == item;
    StagedItem(plan, d0.stage, item);
    var x := At(d0.stage, item).value;
    PutMakes(d.live, item, x);
    PutAt(d.live, item, x);
    PutOnlyAt(d.live, item, x);
    d' := d1.(live := Put(d.live, item, x).value);
    ReachesStep(Anyone, plan, d0, Replace(item), d1, d');
    InstallsOneMore(plan, d0.stage, d.live, d'.live, i, x);
  }

  lemma InstallsOneMore(plan: Plan, staged: Tree, t: Tree, t': Tree, i: nat, x: Tree)
    requires WellFormed(plan) && VerifiedStage(plan, staged) && i < |plan.items|
    requires At(staged, plan.items[i]) == Some(x) && Put(t, plan.items[i], x) == Some(t')
    requires forall item | item in plan.items :: CanMake(t, item)
    requires forall j | 0 <= j < i :: Installed(plan, t, plan.items[j])
    ensures forall j | 0 <= j < i + 1 :: Installed(plan, t', plan.items[j])
    ensures forall j | i < j < |plan.items| :: At(t', plan.items[j]) == At(t, plan.items[j])
    ensures forall item | item in plan.items :: CanMake(t', item)
  {
    var item := plan.items[i];
    PutAt(t, item, x);
    PutOnlyAt(t, item, x);
    OtherItemsKept(plan, t, t', item);
    forall j | 0 <= j < i + 1 ensures Installed(plan, t', plan.items[j]) {
      if j == i { InstalledFromStage(plan, staged, t', item); } else { InstalledByTree(plan, t, t', plan.items[j]); }
    }
    forall other | other in plan.items ensures CanMake(t', other) {
      if other == item { CanMakeStable(t, t', item); } else { CanMakeAfter(t, Placed(item, x), other); }
    }
  }

  lemma {:induction false} ReplaceTo(plan: Plan, pre: Tree, d0: Disk, i: nat) returns (d: Disk)
    requires Start(plan, pre, d0) && !plan.bundle && i <= |plan.items|
    requires (forall item | item in plan.items :: CanMake(pre, item))
    requires forall j | 0 <= j < i :: !IsDir(At(pre, plan.items[j]))
    ensures Replaced(plan, pre, d0, d, i)
    decreases i
  {
    hide Start, Replaced;
    if i == 0 {
      d := Begin(plan, pre, d0);
    } else {
      d := ReplaceTo(plan, pre, d0, i - 1);
      d := ReplaceOne(plan, pre, d0, d, i - 1);
    }
  }

  /** `apply` replaces the items before the exposed one, touches that one and gives up. */
  lemma GivesUpAt(plan: Plan, pre: Tree, d0: Disk, k: nat) returns (d: Disk)
    requires Start(plan, pre, d0) && !plan.bundle && Exposed(plan, pre, k)
    ensures Reaches(plan, d0, d) && In(d, RollingBack) && At(d.live, plan.items[k]) == At(pre, plan.items[k])
    ensures plan.items[k] in d.journal.value.touched && plan.items[k] in d.journal.value.existing
    ensures At(d.backup, plan.items[k]) == At(pre, plan.items[k]) && IsDir(At(pre, plan.items[k]))
  {
    var item := plan.items[k];
    var d1 := ReplaceTo(plan, pre, d0, k);
    var d2 := TouchNext(plan, pre, d0, d1, k);
    d := Save(d2, d2.journal.value.(state := RollingBack));
    ReachesStep(Anyone, plan, d0, BeginRollback(false), d2, d);
    assert d.journal.value.touched[k] == item && item in plan.items;
    var q: Path :| item < q && FileAt(pre, q).Some?;
    if !IsDir(At(pre, item)) { AtBeneath(pre, item, q); }
    StartInv(plan, pre, d0);
    ReachesKeepsInv(Anyone, plan, pre, d0, d);
  }

  /** The run in which the files of an exposed directory are gone: the rollback is cut after the
      directory has been removed. */
  lemma ExposedFilesMayGo(plan: Plan, pre: Tree, d0: Disk, k: nat, q: Path) returns (d: Disk)
    requires Start(plan, pre, d0) && !plan.bundle && Exposed(plan, pre, k) && plan.items[k] < q && FileAt(pre, q).Some?
    ensures Reaches(plan, d0, d) && In(d, RollingBack)
    ensures FileAt(d.live, q) == None && q !in plan.items
  {
    var item := plan.items[k];
    var d1 := GivesUpAt(plan, pre, d0, k);
    d := d1.(live := Without(d1.live, item));
    WithoutOnlyAt(d1.live, item);
    RemovalIsRestoring(plan, d1, d, item);
    ReachesStep(Anyone, plan, d0, Restore(item), d1, d);
    AtBeneath(d.live, item, q);
    forall i | 0 <= i < |plan.items| ensures plan.items[i] != q { if i != k { assert Apart(item, plan.items[i]); } }
  }

  lemma RemovalIsRestoring(plan: Plan, d: Disk, d': Disk, item: Path)
    requires In(d, RollingBack) && item in plan.items && item in d.journal.value.touched
    requires item in d.journal.value.existing
    requires IsDir(At(d.live, item)) && IsDir(At(d.backup, item))
    requires OnlyAt(d.live, d'.live, item) && At(d'.live, item) == None && d' == d.(live := d'.live)
    ensures Does(plan, Restore(item), d, d')
  {
    assert PartOf(None, At(d.live, item).value);
  }

  /** Over all runs of a portable update the changed regular files are items themselves, if and
      only if no directory holding a regular file stands at an owned path that `apply` gets to. */
  lemma OnlyItemsChangeIff(plan: Plan, pre: Tree, d0: Disk)
    requires Start(plan, pre, d0) && !plan.bundle
    ensures (forall d | Reaches(plan, d0, d) :: ItemsOnly(plan, pre, d.live))
            <==> !exists k: nat :: Exposed(plan, pre, k)
  {
    if exists k: nat :: Exposed(plan, pre, k) {
      var k: nat :| Exposed(plan, pre, k);
      var q: Path :| plan.items[k] < q && FileAt(pre, q).Some?;
      var d := ExposedFilesMayGo(plan, pre, d0, k, q);
      assert !ItemsOnly(plan, pre, d.live);
    } else {
      forall d | Reaches(plan, d0, d) ensures ItemsOnly(plan, pre, d.live) {
        var run :| IsRunBy(Anyone, plan, run) && run[0] == d0 && run[|run| - 1] == d;
        RunKeepsDirs(plan, pre, run, |run| - 1);
        forall q: Path | FileAt(d.live, q) != FileAt(pre, q) ensures q in plan.items {
          if q !in plan.items { var k := ChangedMeansExposed(plan, pre, d, q); }
        }
      }
    }
  }

  /** The frame cannot be narrowed to the item paths themselves: a concrete program with a directory
      at its one owned path, and a run that loses the file in it. */
  lemma FilesBeneathAnOwnedPathMayGo() returns (plan: Plan, pre: Tree, d0: Disk, d: Disk, q: Path)
    ensures Start(plan, pre, d0) && !plan.bundle && Reaches(plan, d0, d) && In(d, RollingBack)
    ensures FileAt(pre, q).Some? && FileAt(d.live, q) == None && q !in plan.items
  {
    var stage;
    plan, stage := OneFilePlan();
    var notes := Dir(map["notes" := File([], false)]);
    pre := Dir(map["app" := notes]);
    d0 := Disk(pre, stage, Dir(map[]), Some(Journal(Prepared, [], {})));
    q := ["app", "notes"];
    assert At(notes, ["notes"]) == Some(File([], false)) && q[1..] == ["notes"];
    assert At(pre, q) == At(notes, q[1..]) && plan.items[0] == ["app"] && plan.items[0] < q && FileAt(pre, q).Some?;
    assert FileBeneath(pre, plan.items[0]);
    assert Exposed(plan, pre, 0);
    d := ExposedFilesMayGo(plan, pre, d0, 0, q);
  }
}
