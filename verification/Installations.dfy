/** src/install.rs: arming, applying, rolling back, recovering and discarding an update. Each
    durable action may fail or be the last one before a crash, so the postconditions of these
    methods hold after a crash at any point inside them. */
module Installations {
  import opened Outcomes
  import opened Trees
  import opened FileStores
  import opened Manifests
  import opened Transactions
  import opened CrashSafety

  // ---------------------------------------------------------------------------
  // Listing a staged tree

  /** `p` names, with `prefix` in front, a regular file of `folder`. */
  predicate Listed(folder: Tree, prefix: Path, p: Path) {
    prefix <= p && FileAt(folder, p[|prefix|..]).Some?
  }

  lemma ListedInChild(folder: Tree, prefix: Path, p: Path)
    requires folder.Dir?
    ensures Listed(folder, prefix, p) <==> exists k :: k in folder.entries && Listed(folder.entries[k], prefix + [k], p)
  {
    if Listed(folder, prefix, p) {
      var k := p[|prefix|];
      assert p[|prefix|..][1..] == p[|prefix + [k]|..];
      assert Listed(folder.entries[k], prefix + [k], p);
    }
    if k :| k in folder.entries && Listed(folder.entries[k], prefix + [k], p) {
      assert p[|prefix|] == (prefix + [k])[|prefix|] == k;
      assert p[|prefix|..][1..] == p[|prefix + [k]|..];
    }
  }

  /** `list_files`: the recursion adds what it finds beneath `folder` to `output`. */
  method ListFiles(folder: Tree, prefix: Path, output: set<Path>) returns (r: set<Path>)
    ensures forall p :: p in r <==> p in output || Listed(folder, prefix, p)
    decreases folder
  {
    r := output;
    if folder.File? {
      r := r + {prefix};
      forall p ensures Listed(folder, prefix, p) <==> p == prefix {
        if prefix <= p { assert p == prefix + p[|prefix|..]; }
      }
      return;
    }
    var todo := folder.entries.Keys;
    while todo != {}
      invariant todo <= folder.entries.Keys
      invariant forall p :: p in r <==>
                  p in output || exists k ::
                         k in folder.entries.Keys - todo && Listed(folder.entries[k], prefix + [k], p)
      decreases todo
    {
      var k :| k in todo;
      r := ListFiles(folder.entries[k], prefix + [k], r);
      todo := todo - {k};
    }
    forall p ensures p in r <==> p in output || Listed(folder, prefix, p) { ListedInChild(folder, prefix, p); }
  }

  // ---------------------------------------------------------------------------
  // What decides whether an uninterrupted call succeeds

  /** Undoing an item fails only if a file is in the way of its parent directories, its backup is
      missing, or a directory now stands where the backup is a file. */
  predicate Restorable(live: Tree, backup: Tree, j: Journal, item: Path) {
    && CanMake(live, item)
    && (item in j.existing ==> At(backup, item).Some? && (IsFile(At(backup, item)) ==> !IsDir(At(live, item))))
  }

  ghost predicate Undoable(plan: Plan, live: Tree, backup: Tree, j: Journal) {
    forall item | item in j.touched :: item in plan.items && Restorable(live, backup, j, item)
  }

  /** Whether a backup of `item` can be taken. */
  predicate BackUpPossible(d: Disk, item: Path) {
    CanMake(d.live, item) && (At(d.live, item).Some? ==> CanMake(d.backup, item))
  }

  predicate ReplacePossible(plan: Plan, live: Tree, item: Path) {
    CanMake(live, item) && (!plan.bundle ==> !IsDir(At(live, item)))
  }

  predicate AllBackUpPossible(plan: Plan, d: Disk, from: nat) {
    forall k | from <= k < |plan.items| :: BackUpPossible(d, plan.items[k])
  }

  predicate AllReplacePossible(plan: Plan, live: Tree, from: nat) {
    forall k | from <= k < |plan.items| :: ReplacePossible(plan, live, plan.items[k])
  }

  ghost predicate InstalledBelow(plan: Plan, live: Tree, i: nat) {
    forall k | 0 <= k < i && k < |plan.items| :: Installed(plan, live, plan.items[k])
  }

  /** An apply succeeds on these disks and on no others. */
  ghost predicate Applicable(plan: Plan, d: Disk) {
    && In(d, Prepared)
    && VerifiedStage(plan, d.stage)
    && AllBackUpPossible(plan, d, 0)
    && AllReplacePossible(plan, d.live, 0)
  }

  /** No file stands above `p`. */
  ghost predicate FreeAbove(t: Tree, p: Path) { forall q: Path | q < p :: !IsFile(At(t, q)) }

  lemma CanMakeIff(t: Tree, p: Path)
    ensures CanMake(t, p) <==> FreeAbove(t, p)
  {
    if CanMake(t, p) {
      forall q: Path | q < p ensures !IsFile(At(t, q)) {
        assert q == p[..|q|];
        assert !IsFile(At(t, p[..|q|]));
      }
    }
    if FreeAbove(t, p) {
      forall i | 0 <= i < |p| ensures !IsFile(At(t, p[..i])) {
        var q := p[..i];
        assert q < p;
      }
    }
  }

  /** When `apply` can succeed: no file above an item, in a portable layout no directory at one, and
      nothing in the way of backing up what is there. */
  lemma ApplicableIff(plan: Plan, d: Disk)
    ensures Applicable(plan, d) <==>
              && d.journal.Some? && d.journal.value.state == Prepared && VerifiedStage(plan, d.stage)
              && forall item | item in plan.items ::
                   && FreeAbove(d.live, item)
                   && (IsDir(At(d.live, item)) ==> plan.bundle)
                   && (At(d.live, item).Some? ==> FreeAbove(d.backup, item))
  {
    hide VerifiedStage, CanMake, FreeAbove;
    forall item | item in plan.items
      ensures CanMake(d.live, item) <==> FreeAbove(d.live, item)
      ensures CanMake(d.backup, item) <==> FreeAbove(d.backup, item)
    {
      CanMakeIff(d.live, item);
      CanMakeIff(d.backup, item);
    }
    if AllBackUpPossible(plan, d, 0) && AllReplacePossible(plan, d.live, 0) {
      forall item | item in plan.items
        ensures BackUpPossible(d, item) && ReplacePossible(plan, d.live, item)
      {
        var k :| 0 <= k < |plan.items| && plan.items[k] == item;
        assert BackUpPossible(d, plan.items[k]) && ReplacePossible(plan, d.live, plan.items[k]);
      }
    } else if !AllBackUpPossible(plan, d, 0) {
      var k :| 0 <= k < |plan.items| && !BackUpPossible(d, plan.items[k]);
      assert plan.items[k] in plan.items;
    } else {
      var k :| 0 <= k < |plan.items| && !ReplacePossible(plan, d.live, plan.items[k]);
      assert plan.items[k] in plan.items;
    }
  }

  /** When everything touched can be restored: it is an item, no file is above it, and what was there
      is in the backup; where the backup is a file, no directory stands in the way. */
  lemma UndoableIff(plan: Plan, live: Tree, backup: Tree, j: Journal)
    ensures Undoable(plan, live, backup, j) <==> forall item | item in j.touched ::
              && item in plan.items && FreeAbove(live, item)
              && (item !in j.existing || IsDir(At(backup, item))
                  || (IsFile(At(backup, item)) && !IsDir(At(live, item))))
  {
    hide CanMake, FreeAbove;
    forall item | item in j.touched
      ensures Restorable(live, backup, j, item) <==>
                && FreeAbove(live, item)
                && (item !in j.existing || IsDir(At(backup, item))
                    || (IsFile(At(backup, item)) && !IsDir(At(live, item))))
    { CanMakeIff(live, item); }
  }

  lemma CanMakeApart(t: Tree, t': Tree, p: Path, q: Path)
    requires OnlyAt(t, t', p) && Apart(p, q)
    ensures CanMake(t', q) == CanMake(t, q)
  {
    forall i | 0 <= i < |q| ensures IsFile(At(t', q[..i])) == IsFile(At(t, q[..i])) {
      assert Kept(t, t', p, q[..i]);
      assert !(p <= q[..i]);
    }
  }

  /** Undoing one item changes nothing about whether the others can be undone. */
  lemma UndoableKept(plan: Plan, t: Tree, t': Tree, backup: Tree, j: Journal, item: Path)
    requires WellFormed(plan) && item in plan.items && OnlyAt(t, t', item)
    requires Restorable(t, backup, j, item) && Restorable(t', backup, j, item)
    ensures Undoable(plan, t', backup, j) == Undoable(plan, t, backup, j)
  {
    OtherItemsKept(plan, t, t', item);
    forall other | other in plan.items
      ensures Restorable(t', backup, j, other) == Restorable(t, backup, j, other)
    { if other != item { CanMakeApart(t, t', item, other); } }
  }

  /** The entries of the journal from `i` on have been undone, and could be undone again. */
  ghost predicate UndoneFrom(plan: Plan, d: Disk, j: Journal, i: int) {
    forall k | 0 <= i <= k < |j.touched| ::
      j.touched[k] in plan.items && Restored(d, j, j.touched[k]) && Restorable(d.live, d.backup, j, j.touched[k])
  }

  lemma UndoneOneMore(plan: Plan, d: Disk, d': Disk, j: Journal, i: nat)
    requires WellFormed(plan) && i < |j.touched| && UndoneFrom(plan, d, j, i + 1)
    requires j.touched[i] in plan.items && OnlyAt(d.live, d'.live, j.touched[i]) && d'.backup == d.backup
    requires Restored(d', j, j.touched[i]) && Restorable(d'.live, d'.backup, j, j.touched[i])
    ensures UndoneFrom(plan, d', j, i)
  {
    var item := j.touched[i];
    OtherItemsKept(plan, d.live, d'.live, item);
    forall k | i <= k < |j.touched| && j.touched[k] != item
      ensures j.touched[k] in plan.items && Restored(d', j, j.touched[k])
      ensures Restorable(d'.live, d'.backup, j, j.touched[k])
    {
      assert k > i;
      CanMakeApart(d.live, d'.live, item, j.touched[k]);
    }
  }

  /** A rollback from `j` may begin: it is the durable journal, or one intent ahead of it. */
  ghost predicate MayRollBack(plan: Plan, d: Disk, j: Journal) {
    && d.journal.Some?
    && var durable := d.journal.value;
       || (InAny(d, {Applying, AwaitingConfirmation})
           && j.(state := RollingBack) == durable.(state := RollingBack))
       || (In(d, Applying) && NextIsDue(plan, d, durable)
           && j.(state := RollingBack) == Intended(plan, durable).(state := RollingBack))
  }

  lemma UnfinishedRollsBack(plan: Plan, d: Disk, j: Journal)
    requires d.journal == Some(j) && !Terminal(d)
    ensures ReachesBy(Recoverer, plan, d, Save(d, j.(state := RollingBack)))
  {
    assert InAny(d, {Prepared, Applying, AwaitingConfirmation, RollingBack, Failed}) by {
      match j.state {
        case Prepared =>
        case Applying =>
        case AwaitingConfirmation =>
        case RollingBack =>
        case Failed =>
      }
    }
    ReachesSelf(Recoverer, plan, d);
    ReachesStep(Recoverer, plan, d, BeginRollback(false), d, Save(d, j.(state := RollingBack)));
  }

  lemma RollbackBegins(plan: Plan, pre: Tree, d: Disk, j: Journal)
    requires Inv(plan, pre, d) && MayRollBack(plan, d, j)
    ensures ReachesBy(Applier, plan, d, d) && ReachesBy(Applier, plan, d, Save(d, j.(state := RollingBack)))
    ensures Armed(plan, pre, d, j)
    ensures !plan.bundle || j.touched == [] ==> Undoable(plan, d.live, d.backup, j)
  {
    var durable, d1 := d.journal.value, Save(d, j.(state := RollingBack));
    ReachesSelf(Applier, plan, d);
    if j.(state := RollingBack) == durable.(state := RollingBack) {
      assert Does(plan, BeginRollback(false), d, d1);
      ReachesStep(Applier, plan, d, BeginRollback(false), d, d1);
    } else {
      assert Does(plan, BeginRollback(true), d, d1);
      ReachesStep(Applier, plan, d, BeginRollback(true), d, d1);
      IntentKeepsArmed(plan, pre, d, durable);
    }
    if !plan.bundle { ArmedIsUndoable(plan, pre, d, j); }
  }

  /** Whatever `arm` leaves when it dies, the program is untouched. */
  lemma HalfArmedIsSafe(plan: Plan, d: Disk)
    requires WellFormed(plan) && (d.journal == None || d.journal == Some(Journal(Prepared, [], {})))
    requires forall item | item in plan.items :: At(d.backup, item) == None
    ensures Inv(plan, d.live, d)
  {
    forall q: Path ensures KeptAll(d.live, d.live, ItemSet(plan), q) {}
  }

  lemma PreparedIsOld(plan: Plan, pre: Tree, d: Disk)
    requires Inv(plan, pre, d)
    ensures In(d, Prepared) ==> AllOld(plan, pre, d.live)
  {
  }

  lemma NothingChanged(plan: Plan, t: Tree)
    ensures OnlyWithin(t, t, ItemSet(plan))
  {
  }

  lemma EndRollbackReaches(plan: Plan, start: Disk, d: Disk, d': Disk, j: Journal)
    requires ReachesBy(Recoverer, plan, start, d) && d.journal == Some(j.(state := RollingBack))
    requires forall item | item in j.touched :: item in plan.items && Restored(d, j, item)
    requires d' in {d, Save(d, j.(state := RolledBack))}
    ensures ReachesBy(Recoverer, plan, start, d')
  {
    if d' != d {
      ReachesStep(Recoverer, plan, start, EndRollback, d, d');
    }
  }

  lemma UndoneAll(plan: Plan, d: Disk, j: Journal)
    requires UndoneFrom(plan, d, j, 0)
    ensures forall item | item in j.touched :: item in plan.items && Restored(d, j, item)
    ensures Undoable(plan, d.live, d.backup, j)
  {
    forall item | item in j.touched
      ensures item in plan.items && Restored(d, j, item) && Restorable(d.live, d.backup, j, item)
    {
      var k :| 0 <= k < |j.touched| && j.touched[k] == item;
    }
  }

  /** The loop that captures backups has handled the first `i` items. */
  ghost predicate BackedUp(plan: Plan, pre: Tree, d0: Disk, d: Disk, existing: set<Path>, i: nat) {
    && i <= |plan.items|
    && Inv(plan, pre, d) && In(d, Prepared) && ReachesBy(Applier, plan, d0, d)
    && existing == (set k | 0 <= k < i && At(d.live, plan.items[k]).Some? :: plan.items[k])
    && (forall item | item in existing :: At(d.backup, item) == At(d.live, item))
    && AllBackUpPossible(plan, d, i) == AllBackUpPossible(plan, d0, 0)
  }

  lemma BackUpReaches(plan: Plan, pre: Tree, d0: Disk, d: Disk, d': Disk, item: Path)
    requires Inv(plan, pre, d) && ReachesBy(Applier, plan, d0, d) && (d' == d || Does(plan, BackUp(item), d, d'))
    ensures Inv(plan, pre, d') && ReachesBy(Applier, plan, d0, d') && d' == d.(backup := d'.backup)
  {
    if d' != d {
      ReachesStep(Applier, plan, d0, BackUp(item), d, d');
      BackUpKeepsInv(plan, pre, item, d, d');
    }
  }

  lemma BackedUpOneMore(plan: Plan, pre: Tree, d0: Disk, d: Disk, d': Disk, existing: set<Path>, i: nat)
    requires i < |plan.items| && BackedUp(plan, pre, d0, d, existing, i)
    requires Inv(plan, pre, d') && ReachesBy(Applier, plan, d0, d') && d' == d.(backup := d'.backup)
    requires OnlyAt(d.backup, d'.backup, plan.items[i])
    requires BackUpPossible(d, plan.items[i])
    requires At(d.live, plan.items[i]).Some? ==> At(d'.backup, plan.items[i]) == At(d.live, plan.items[i])
    ensures BackedUp(plan, pre, d0, d',
                     existing + if At(d.live, plan.items[i]).Some? then {plan.items[i]} else {}, i + 1)
  {
    hide ReachesBy, CanMake, OnlyAt, BackUpPossible, AllBackUpPossible, OnlyWithin;
    BackUpPossibleKept(plan, d, d', i);
    BackedUpGrows(plan, d, d', existing, i);
  }

  lemma BackedUpGrows(plan: Plan, d: Disk, d': Disk, existing: set<Path>, i: nat)
    requires WellFormed(plan) && i < |plan.items| && d' == d.(backup := d'.backup)
    requires existing == (set k | 0 <= k < i && At(d.live, plan.items[k]).Some? :: plan.items[k])
    requires forall item | item in existing :: At(d.backup, item) == At(d.live, item)
    requires OnlyAt(d.backup, d'.backup, plan.items[i])
    requires At(d.live, plan.items[i]).Some? ==> At(d'.backup, plan.items[i]) == At(d.live, plan.items[i])
    ensures var grown := existing + if At(d.live, plan.items[i]).Some? then {plan.items[i]} else {};
            && grown == (set k | 0 <= k < i + 1 && At(d.live, plan.items[k]).Some? :: plan.items[k])
            && forall item | item in grown :: At(d'.backup, item) == At(d.live, item)
  {
    OtherItemsKept(plan, d.backup, d'.backup, plan.items[i]);
  }

  lemma BackedUpDone(plan: Plan, pre: Tree, d0: Disk, d: Disk, existing: set<Path>)
    requires BackedUp(plan, pre, d0, d, existing, |plan.items|) && d0.live == d.live
    ensures existing == set item | item in plan.items && At(d.live, item).Some?
    ensures AllBackUpPossible(plan, d0, 0)
    ensures forall item | item in plan.items :: CanMake(d.live, item)
  {
    forall item | item in plan.items ensures CanMake(d.live, item) {
      var k :| 0 <= k < |plan.items| && plan.items[k] == item;
      assert BackUpPossible(d0, plan.items[k]);
    }
  }

  /** The loop that replaces items has handled the first `i` of them. */
  ghost predicate ReplacedSoFar(plan: Plan, pre: Tree, d0: Disk, staged: Tree, d: Disk, i: nat) {
    && i <= |plan.items|
    && VerifiedStage(plan, staged) && (i < |plan.items| ==> d.stage == staged)
    && Inv(plan, pre, d) && ReachesBy(Applier, plan, d0, d)
    && InstalledBelow(plan, d.live, i)
    && AllReplacePossible(plan, d.live, i) == AllReplacePossible(plan, d0.live, 0)
  }

  lemma TouchReaches(plan: Plan, pre: Tree, d0: Disk, d: Disk, d': Disk)
    requires Inv(plan, pre, d) && In(d, Applying) && ReachesBy(Applier, plan, d0, d)
    requires NextIsDue(plan, d, d.journal.value)
    requires d' in {d, Save(d, Intended(plan, d.journal.value))}
    ensures Inv(plan, pre, d') && ReachesBy(Applier, plan, d0, d')
  {
    if d' != d {
      assert Does(plan, Touch, d, d');
      ReachesStep(Applier, plan, d0, Touch, d, d');
      StepKeepsInv(plan, pre, Touch, d, d');
    }
  }

  lemma BeginApplyingReaches(plan: Plan, pre: Tree, d0: Disk, d: Disk, d': Disk, existing: set<Path>)
    requires Inv(plan, pre, d) && In(d, Prepared) && ReachesBy(Applier, plan, d0, d)
    requires existing == set item | item in plan.items && At(d.live, item).Some?
    requires forall item | item in plan.items :: CanMake(d.live, item)
    requires forall item | item in existing :: At(d.backup, item) == At(d.live, item)
    requires d' in {d, Save(d, d.journal.value.(state := Applying, existing := d.journal.value.existing + existing))}
    ensures Inv(plan, pre, d') && ReachesBy(Applier, plan, d0, d')
    ensures d.journal.value.touched == []
  {
    if d' != d {
      assert Does(plan, BeginApplying, d, d');
      ReachesStep(Applier, plan, d0, BeginApplying, d, d');
      StepKeepsInv(plan, pre, BeginApplying, d, d');
    }
  }

  lemma AwaitReaches(plan: Plan, pre: Tree, d0: Disk, d: Disk, d': Disk)
    requires Inv(plan, pre, d) && In(d, Applying) && ReachesBy(Applier, plan, d0, d)
    requires d.journal.value.touched == plan.items && AllNew(plan, d.live)
    requires d' in {d, Save(d, d.journal.value.(state := AwaitingConfirmation))}
    ensures Inv(plan, pre, d') && ReachesBy(Applier, plan, d0, d')
  {
    if d' != d {
      assert Does(plan, Await, d, d');
      ReachesStep(Applier, plan, d0, Await, d, d');
      StepKeepsInv(plan, pre, Await, d, d');
    }
  }

  lemma ReplacedNone(plan: Plan, pre: Tree, d: Disk)
    requires Inv(plan, pre, d) && VerifiedStage(plan, d.stage)
    ensures ReachesBy(Applier, plan, d, d) && ReplacedSoFar(plan, pre, d, d.stage, d, 0)
  {
    ReachesSelf(Applier, plan, d);
  }

  lemma CannotReplace(plan: Plan, pre: Tree, d0: Disk, staged: Tree, d: Disk, i: nat)
    requires i < |plan.items| && ReplacedSoFar(plan, pre, d0, staged, d, i)
    ensures !ReplacePossible(plan, d.live, plan.items[i]) ==> !AllReplacePossible(plan, d0.live, 0)
  {
  }

  lemma ReplacedDone(plan: Plan, pre: Tree, d0: Disk, staged: Tree, d: Disk)
    requires ReplacedSoFar(plan, pre, d0, staged, d, |plan.items|)
    ensures AllNew(plan, d.live) && AllReplacePossible(plan, d0.live, 0)
  {
    forall item | item in plan.items ensures Installed(plan, d.live, item) {
      var k :| 0 <= k < |plan.items| && plan.items[k] == item;
    }
  }

  lemma ReplacedIsDue(plan: Plan, pre: Tree, d0: Disk, staged: Tree, d: Disk, i: nat, j: Journal)
    requires ReplacedSoFar(plan, pre, d0, staged, d, i) && j.touched == plan.items[..i]
    ensures NextIsDue(plan, d, j)
  {
    forall item | item in j.touched ensures Installed(plan, d.live, item) {
      var k :| 0 <= k < i && plan.items[k] == item;
    }
  }

  lemma ReplacedStill(plan: Plan, pre: Tree, d0: Disk, staged: Tree, d: Disk, d': Disk, i: nat)
    requires ReplacedSoFar(plan, pre, d0, staged, d, i)
    requires Inv(plan, pre, d') && ReachesBy(Applier, plan, d0, d') && d'.live == d.live && d'.stage == d.stage
    ensures ReplacedSoFar(plan, pre, d0, staged, d', i)
  {
  }

  lemma ReplacedOneMore(plan: Plan, pre: Tree, d0: Disk, staged: Tree, d: Disk, d': Disk, i: nat)
    requires i < |plan.items| && ReplacedSoFar(plan, pre, d0, staged, d, i)
    requires Inv(plan, pre, d') && ReachesBy(Applier, plan, d0, d') && (!plan.bundle ==> d'.stage == staged)
    requires OnlyAt(d.live, d'.live, plan.items[i]) && At(d'.live, plan.items[i]) == At(staged, plan.items[i])
    requires ReplacePossible(plan, d.live, plan.items[i])
    ensures ReplacedSoFar(plan, pre, d0, staged, d', i + 1)
  {
    InstalledOneMore(plan, staged, d.live, d'.live, i);
    ReplacePossibleKept(plan, d.live, d'.live, i);
  }

  // ---------------------------------------------------------------------------

  class Installation {
    const plan: Plan
    const reliable: bool
    const live: FileStore
    const stage: FileStore
    const backup: FileStore
    var journal: Option<Journal>
    /** Whether some other process holds `.freshen/update.lock`. */
    var busy: bool
    /** Whether `.freshen/transaction` exists. */
    var present: bool

    constructor (plan: Plan, live: FileStore, stage: FileStore, backup: FileStore, journal: Option<Journal>,
                 busy: bool, present: bool)
      requires WellFormed(plan) && live != stage && stage != backup && backup != live
      requires live.reliable == stage.reliable == backup.reliable
      ensures Valid() && Now() == Disk(live.tree, stage.tree, backup.tree, journal)
      ensures this.live == live && this.stage == stage && this.backup == backup && this.reliable == live.reliable
      ensures this.plan == plan && this.busy == busy && this.present == present
    {
      this.plan, this.live, this.stage, this.backup, this.reliable := plan, live, stage, backup, live.reliable;
      this.journal, this.busy, this.present := journal, busy, present;
    }

    ghost predicate Valid()
    {
      && WellFormed(plan)
      && live != stage && stage != backup && backup != live
      && live.reliable == stage.reliable == backup.reliable == reliable
    }

    ghost function Now(): Disk
      reads this, live, stage, backup
    {
      Disk(live.tree, stage.tree, backup.tree, journal)
    }

    method SaveJournal(j: Journal) returns (o: Outcome)
      modifies this`journal
      ensures journal in {old(journal), Some(j)}
      ensures o.Ok? ==> journal == Some(j)
      ensures reliable ==> o.Ok?
    {
      o := Fault(reliable);
      if !o.Ok? { return; }
      journal := Some(j);
      o := Fault(reliable);
    }

    /** Sizes, hashes and inventory of the stage against the signed manifest. */
    method VerifyStage() returns (o: Outcome)
      ensures o.Ok? ==> VerifiedStage(plan, stage.tree)
      ensures reliable ==> !o.Crashed? && (o.Ok? <==> VerifiedStage(plan, stage.tree))
    {
      o := Fault(reliable);
      if !o.Ok? { return; }
      var expected: set<Path> := {};
      var i := 0;
      while i < |plan.files|
        invariant 0 <= i <= |plan.files|
        invariant forall k | 0 <= k < i :: Matches(plan, plan.files[k], At(stage.tree, FilePath(plan.files[k])))
        invariant expected == set k | 0 <= k < i :: FilePath(plan.files[k])
      {
        if !Matches(plan, plan.files[i], At(stage.tree, FilePath(plan.files[i]))) { return Err(HashMismatch); }
        expected := expected + {FilePath(plan.files[i])};
        i := i + 1;
      }
      var actual := ListFiles(stage.tree, [], {});
      forall q: Path ensures q in actual <==> FileAt(stage.tree, q).Some? {
        assert Listed(stage.tree, [], q) == FileAt(stage.tree, q).Some?;
      }
      forall q: Path ensures q in expected <==> Declared(plan, q) {}
      if actual != expected {
        forall q | q in expected ensures q in actual {
          var k :| 0 <= k < |plan.files| && FilePath(plan.files[k]) == q;
          assert Matches(plan, plan.files[k], At(stage.tree, q));
        }
        return Err(Invalid);
      }
    }

    /** Capture the whole rollback set before any destination is modified. */
    method BackUpAll(ghost pre: Tree) returns (o: Outcome, existing: set<Path>)
      requires Valid() && Inv(plan, pre, Now()) && In(Now(), Prepared)
      modifies backup
      ensures ReachesBy(Applier, plan, old(Now()), Now())
      ensures o.Ok? ==> existing == set item | item in plan.items && At(live.tree, item).Some?
      ensures o.Ok? ==> forall item | item in existing :: At(backup.tree, item) == At(live.tree, item)
      ensures o.Ok? ==> forall item | item in plan.items :: CanMake(live.tree, item)
      ensures reliable ==> !o.Crashed? && (o.Ok? <==> old(AllBackUpPossible(plan, Now(), 0)))
    {
      hide Inv, ReachesBy, CanMake, BackUpPossible;
      ghost var d0 := Now();
      ReachesSelf(Applier, plan, d0);
      existing := {};
      o := Fault(reliable);
      if !o.Ok? { return; }
      var i := 0;
      while i < |plan.items|
        invariant 0 <= i <= |plan.items| && o.Ok?
        invariant BackedUp(plan, pre, d0, Now(), existing, i)
      {
        o, existing := BackUpNext(existing, i, pre, d0);
        if !o.Ok? { return; }
        i := i + 1;
      }
      BackedUpDone(plan, pre, d0, Now(), existing);
    }

    method BackUpNext(found: set<Path>, i: nat, ghost pre: Tree, ghost d0: Disk)
      returns (o: Outcome, existing: set<Path>)
      requires Valid() && i < |plan.items| && BackedUp(plan, pre, d0, Now(), found, i)
      modifies backup
      ensures ReachesBy(Applier, plan, d0, Now())
      ensures o.Ok? ==> BackedUp(plan, pre, d0, Now(), existing, i + 1)
      ensures reliable ==> !o.Crashed? && (o.Ok? <==> old(BackUpPossible(Now(), plan.items[i])))
    {
      ghost var d := Now();
      existing := found;
      o := BackUpItem(plan.items[i], pre, d0);
      if !o.Ok? { return; }
      BackedUpOneMore(plan, pre, d0, d, Now(), existing, i);
      existing := existing + if At(live.tree, plan.items[i]).Some? then {plan.items[i]} else {};
    }

    method BackUpItem(item: Path, ghost pre: Tree, ghost d0: Disk) returns (o: Outcome)
      requires Valid() && Inv(plan, pre, Now()) && In(Now(), Prepared) && ReachesBy(Applier, plan, d0, Now())
      requires item in plan.items
      modifies backup
      ensures Inv(plan, pre, Now()) && ReachesBy(Applier, plan, d0, Now())
      ensures OnlyAt(old(backup.tree), backup.tree, item)
      ensures o.Ok? ==>
                old(BackUpPossible(Now(), item)) && (At(live.tree, item).Some? ==>
                    At(backup.tree, item) == At(live.tree, item))
      ensures reliable ==> !o.Crashed? && (o.Ok? <==> old(BackUpPossible(Now(), item)))
    {
      ghost var d := Now();
      OnlyAtRefl(backup.tree, item);
      o := Fault(reliable);
      if !o.Ok? { return; }
      if !CanMake(live.tree, item) { return Err(Io); }
      if At(live.tree, item).Some? {
        FreshCopy(At(live.tree, item).value, At(backup.tree, item));
        o := backup.CopyTree(At(live.tree, item).value, item);
        BackUpReaches(plan, pre, d0, d, Now(), item);
        if o.Ok? {
          ExistingCanMake(backup.tree, item);
          CanMakeStable(old(backup.tree), backup.tree, item);
        }
      }
    }

    /** Replace the items one by one, saving the intent to replace each one beforehand. */
    method ReplaceAll(j0: Journal, ghost pre: Tree) returns (o: Outcome, j: Journal)
      requires Valid() && Inv(plan, pre, Now()) && VerifiedStage(plan, stage.tree)
      requires journal == Some(j0) && j0.state == Applying && j0.touched == []
      modifies this`journal, live, stage
      ensures ReachesBy(Applier, plan, old(Now()), Now())
      ensures In(Now(), Applying) && (j == journal.value || j == Intended(plan, journal.value))
      ensures o.Ok? ==> j == journal.value && j.touched == plan.items && AllNew(plan, live.tree)
      ensures reliable ==> !o.Crashed? && (o.Ok? <==> old(AllReplacePossible(plan, live.tree, 0)))
      ensures j != journal.value ==> NextIsDue(plan, Now(), journal.value)
      ensures reliable && plan.bundle && o.Err? ==> j.touched == []
    {
      hide Inv, VerifiedStage, Installed, ReachesBy;
      ghost var d0, staged := Now(), stage.tree;
      ReplacedNone(plan, pre, d0);
      o, j := Ok, j0;
      var i := 0;
      while i < |plan.items|
        invariant 0 <= i <= |plan.items| && o.Ok? && Valid()
        invariant journal == Some(j) && j == j0.(touched := plan.items[..i])
        invariant ReplacedSoFar(plan, pre, d0, staged, Now(), i)
      {
        o, j := ReplaceNext(j, i, staged, pre, d0);
        if !o.Ok? { return; }
        i := i + 1;
      }
      assert plan.items[..i] == plan.items;
      ReplacedDone(plan, pre, d0, staged, Now());
    }

    method ReplaceNext(j0: Journal, i: nat, ghost staged: Tree, ghost pre: Tree, ghost d0: Disk)
      returns (o: Outcome, j: Journal)
      requires Valid() && i < |plan.items| && ReplacedSoFar(plan, pre, d0, staged, Now(), i)
      requires journal == Some(j0) && j0.state == Applying && j0.touched == plan.items[..i]
      modifies this`journal, live, stage
      ensures ReachesBy(Applier, plan, d0, Now())
      ensures In(Now(), Applying) && (j == journal.value || j == Intended(plan, journal.value))
      ensures o.Ok? ==> journal == Some(j) && j == j0.(touched := plan.items[..i + 1])
      ensures o.Ok? ==> ReplacedSoFar(plan, pre, d0, staged, Now(), i + 1)
      ensures reliable ==> !o.Crashed? && (o.Err? ==> !AllReplacePossible(plan, d0.live, 0))
      ensures j != journal.value ==> NextIsDue(plan, Now(), journal.value)
      ensures reliable && plan.bundle && o.Err? ==> j == j0
    {
      j := j0;
      o := Fault(reliable);
      if !o.Ok? { return; }
      CannotReplace(plan, pre, d0, staged, Now(), i);
      if !CanMake(live.tree, plan.items[i]) { return Err(Io), j; }
      j := j0.(touched := j0.touched + [plan.items[i]]);
      IntentNext(plan, j0, i);
      ReplacedIsDue(plan, pre, d0, staged, Now(), i, j0);
      o := SaveIntent(j, i, staged, pre, d0);
      if !o.Ok? { return; }
      o := InstallNext(i, staged, pre, d0);
    }

    method InstallNext(i: nat, ghost staged: Tree, ghost pre: Tree, ghost d0: Disk) returns (o: Outcome)
      requires Valid() && i < |plan.items| && In(Now(), Applying) && journal.value.touched == plan.items[..i + 1]
      requires ReplacedSoFar(plan, pre, d0, staged, Now(), i) && CanMake(live.tree, plan.items[i])
      modifies live, stage
      ensures ReachesBy(Applier, plan, d0, Now())
      ensures o.Ok? ==> ReplacedSoFar(plan, pre, d0, staged, Now(), i + 1)
      ensures reliable ==> !o.Crashed? && (o.Err? ==> !AllReplacePossible(plan, d0.live, 0))
      ensures reliable && plan.bundle ==> o.Ok?
    {
      hide Inv, ReachesBy, Installed, VerifiedStage, OnlyAt, CanMake, AllReplacePossible;
      ghost var d := Now();
      CannotReplace(plan, pre, d0, staged, d, i);
      o := ReplaceItem(plan.items[i], staged, pre, d0);
      if !o.Ok? { return; }
      ReplacedOneMore(plan, pre, d0, staged, d, Now(), i);
    }

    /** Write the intent down before the replacement it announces. */
    method SaveIntent(j: Journal, i: nat, ghost staged: Tree, ghost pre: Tree, ghost d0: Disk) returns (o: Outcome)
      requires Valid() && In(Now(), Applying) && ReplacedSoFar(plan, pre, d0, staged, Now(), i)
      requires j == Intended(plan, journal.value) && NextIsDue(plan, Now(), journal.value)
      modifies this`journal
      ensures ReplacedSoFar(plan, pre, d0, staged, Now(), i)
      ensures journal in {old(journal), Some(j)} && (o.Ok? ==> journal == Some(j))
      ensures reliable ==> o.Ok?
    {
      ghost var d := Now();
      o := SaveJournal(j);
      TouchReaches(plan, pre, d0, d, Now());
      ReplacedStill(plan, pre, d0, staged, d, Now(), i);
    }

    /** The two layouts: a bundle is renamed aside and its successor renamed into place, a file is
        copied with retries. */
    method ReplaceItem(item: Path, ghost staged: Tree, ghost pre: Tree, ghost d0: Disk) returns (o: Outcome)
      requires Valid() && Inv(plan, pre, Now()) && ReachesBy(Applier, plan, d0, Now())
      requires item in plan.items && stage.tree == staged && VerifiedStage(plan, staged)
      requires In(Now(), Applying) && journal.value.touched != []
      requires item == journal.value.touched[|journal.value.touched| - 1]
      requires CanMake(live.tree, item)
      modifies live, stage
      ensures Inv(plan, pre, Now()) && ReachesBy(Applier, plan, d0, Now())
      ensures OnlyAt(old(live.tree), live.tree, item)
      ensures !plan.bundle ==> stage.tree == staged
      ensures o.Ok? ==> At(live.tree, item) == At(staged, item)
      ensures o.Ok? ==> old(ReplacePossible(plan, live.tree, item))
      ensures reliable ==> !o.Crashed? && (o.Ok? <==> old(ReplacePossible(plan, live.tree, item)))
    {
      hide Inv, VerifiedStage, ReachesBy;
      ghost var d := Now();
      StagedItem(plan, staged, item);
      OnlyAtRefl(live.tree, item);
      if !plan.bundle {
        ghost var tries;
        var transient: nat -> bool, late: nat -> nat := *, *;
        o, tries := live.CopyTreeWithRetry(At(stage.tree, item).value, item, transient, late);
        Replaces(plan, pre, item, d0, d, Now());
        return;
      }
      o := Fault(reliable);
      if !o.Ok? { return; }
      if At(live.tree, item).Some? {
        RenameAside(item);
        Replaces(plan, pre, item, d0, d, Now());
        CanMakeStable(d.live, live.tree, item);
      }
      o := Fault(reliable);
      if !o.Ok? { return; }
      ghost var d1 := Now();
      RenameIntoPlace(item);
      OnlyAtTrans(d.live, d1.live, live.tree, item);
      Replaces(plan, pre, item, d0, d1, Now());
      o := Fault(reliable);
    }

    /** The old bundle leaves the program directory; what it becomes is never read again. */
    method RenameAside(item: Path)
      requires item != [] && live != stage
      modifies live
      ensures OnlyAt(old(live.tree), live.tree, item) && At(live.tree, item) == None
    {
      WithoutOnlyAt(live.tree, item);
      live.tree := Without(live.tree, item);
    }

    method RenameIntoPlace(item: Path)
      requires item != [] && live != stage && CanMake(live.tree, item) && At(stage.tree, item).Some?
      modifies live, stage
      ensures OnlyAt(old(live.tree), live.tree, item) && At(live.tree, item) == old(At(stage.tree, item))
    {
      var next := At(stage.tree, item).value;
      ParentIff(live.tree, item);
      PutIff(live.tree, item, next);
      PutAt(live.tree, item, next);
      PutOnlyAt(live.tree, item, next);
      live.tree := Put(live.tree, item, next).value;
      stage.tree := Without(stage.tree, item);
    }

    /** `apply`: every replacement is preceded by its backup and its recorded intent, and a failed
        one is rolled back on the spot. `pre` is the tree the transaction was armed over. */
    method Apply(ghost pre: Tree) returns (o: Outcome)
      requires Valid() && Inv(plan, pre, Now())
      modifies this`journal, live, stage, backup
      ensures ReachesBy(Applier, plan, old(Now()), Now()) && Inv(plan, pre, Now())
      ensures o.Ok? ==> In(Now(), AwaitingConfirmation)
      ensures old(In(Now(), Prepared)) ==> journal.Some? && !InAny(Now(), {Committed, Failed})
      ensures old(!In(Now(), Prepared)) ==> !o.Ok? && Now() == old(Now())
      ensures reliable ==> !o.Crashed? && (o.Ok? <==> old(Applicable(plan, Now())))
      ensures reliable && !o.Ok? && old(In(Now(), Prepared)) ==>
                AllOld(plan, pre, live.tree) && (In(Now(), Prepared) || In(Now(), RolledBack))
    {
      hide Inv, ReachesBy;
      ghost var d0 := Now();
      ReachesSelf(Applier, plan, d0);
      PreparedIsOld(plan, pre, d0);
      o := VerifyStage();
      if !o.Ok? { return; }
      if journal == None { return Err(Io); }
      if journal.value.state != Prepared { return Err(Recovery); }
      var existing;
      o, existing := BackUpAll(pre);
      ReachesKeepsInv(Applier, plan, pre, d0, Now());
      PreparedIsOld(plan, pre, Now());
      if !o.Ok? { return; }
      ghost var d1 := Now();
      o := ReplaceBackedUp(existing, pre);
      ReachesTrans(Applier, plan, d0, d1, Now());
    }

    /** `apply` from the point where everything has been captured. */
    method ReplaceBackedUp(existing: set<Path>, ghost pre: Tree) returns (o: Outcome)
      requires Valid() && Inv(plan, pre, Now()) && In(Now(), Prepared) && VerifiedStage(plan, stage.tree)
      requires existing == set item | item in plan.items && At(live.tree, item).Some?
      requires forall item | item in plan.items :: CanMake(live.tree, item)
      requires forall item | item in existing :: At(backup.tree, item) == At(live.tree, item)
      modifies this`journal, live, stage
      ensures ReachesBy(Applier, plan, old(Now()), Now()) && Inv(plan, pre, Now())
      ensures o.Ok? ==> In(Now(), AwaitingConfirmation)
      ensures journal.Some? && !InAny(Now(), {Committed, Failed})
      ensures reliable ==> !o.Crashed? && (o.Ok? <==> old(AllReplacePossible(plan, live.tree, 0)))
      ensures reliable && !o.Ok? ==> AllOld(plan, pre, live.tree) && In(Now(), RolledBack)
    {
      hide VerifiedStage, Installed, ReachesBy;
      ghost var d1 := Now();
      ReachesSelf(Applier, plan, d1);
      var j := journal.value.(state := Applying, existing := journal.value.existing + existing);
      o := SaveJournal(j);
      BeginApplyingReaches(plan, pre, d1, d1, Now(), existing);
      if !o.Ok? { return; }
      ghost var d2 := Now();
      o, j := ReplaceAll(j, pre);
      ReachesTrans(Applier, plan, d1, d2, Now());
      ReachesKeepsInv(Applier, plan, pre, d1, Now());
      ghost var d3 := Now();
      if o.Ok? {
        o := SaveJournal(j.(state := AwaitingConfirmation));
        AwaitReaches(plan, pre, d1, d3, Now());
      }
      if !o.Err? { return; }
      ghost var d4 := Now();
      var undone := RollBackFailedApply(j, pre);
      ReachesTrans(Applier, plan, d1, d4, Now());
      o := if undone.Ok? then o else undone;
    }

    /** The end of a failed `apply`. */
    method RollBackFailedApply(j: Journal, ghost pre: Tree) returns (o: Outcome)
      requires Valid() && Inv(plan, pre, Now()) && MayRollBack(plan, Now(), j)
      modifies this`journal, live
      ensures ReachesBy(Applier, plan, old(Now()), Now()) && Inv(plan, pre, Now())
      ensures journal.Some? && !InAny(Now(), {Committed, Failed})
      ensures reliable ==> !o.Crashed?
      ensures o.Ok? ==> In(Now(), RolledBack)
      ensures reliable && (plan.bundle ==> j.touched == []) ==> o.Ok? && AllOld(plan, pre, live.tree)
    {
      ghost var d0 := Now();
      ghost var d1 := Save(d0, j.(state := RollingBack));
      RollbackBegins(plan, pre, d0, j);
      o := RollbackInner(j);
      if Now() != d0 {
        ReachesWeaker(Recoverer, Applier, plan, d1, Now());
        ReachesTrans(Applier, plan, d0, d1, Now());
      }
      ReachesKeepsInv(Applier, plan, pre, d0, Now());
      ReachesWithin(Applier, plan, d0, Now());
    }

    /** Undo the touched items in reverse, for any journal at all: the frame and the saved states
        hold even of a journal nobody wrote. */
    method RollbackInner(j: Journal) returns (o: Outcome)
      requires Valid()
      modifies this`journal, live
      ensures OnlyWithin(old(live.tree), live.tree, ItemSet(plan))
      ensures Now() == old(Now()) || ReachesBy(Recoverer, plan, Save(old(Now()), j.(state := RollingBack)), Now())
      ensures o.Ok? ==> ReachesBy(Recoverer, plan, Save(old(Now()), j.(state := RollingBack)), Now())
      ensures o.Ok? ==> journal == Some(j.(state := RolledBack))
      ensures reliable ==> !o.Crashed? && (o.Ok? <==> old(Undoable(plan, live.tree, backup.tree, j)))
    {
      ghost var d0 := Now();
      ghost var start := Save(d0, j.(state := RollingBack));
      ReachesSelf(Recoverer, plan, start);
      NothingChanged(plan, live.tree);
      o := SaveJournal(j.(state := RollingBack));
      if !o.Ok? { return; }
      o := UndoTouched(j);
      if !o.Ok? { return; }
      ghost var d := Now();
      o := SaveJournal(j.(state := RolledBack));
      EndRollbackReaches(plan, start, d, Now(), j);
    }

    /** The reverse loop. */
    method UndoTouched(j: Journal) returns (o: Outcome)
      requires Valid() && journal == Some(j.(state := RollingBack))
      modifies live
      ensures OnlyWithin(old(live.tree), live.tree, ItemSet(plan))
      ensures ReachesBy(Recoverer, plan, old(Now()), Now())
      ensures o.Ok? ==> forall item | item in j.touched :: item in plan.items && Restored(Now(), j, item)
      ensures reliable ==> !o.Crashed? && (o.Ok? <==> old(Undoable(plan, live.tree, backup.tree, j)))
    {
      ghost var start, before := Now(), live.tree;
      ReachesSelf(Recoverer, plan, start);
      NothingChanged(plan, before);
      o := Ok;
      var i := |j.touched|;
      while i > 0
        invariant 0 <= i <= |j.touched| && o.Ok?
        invariant journal == Some(j.(state := RollingBack))
        invariant OnlyWithin(before, live.tree, ItemSet(plan))
        invariant ReachesBy(Recoverer, plan, start, Now())
        invariant UndoneFrom(plan, Now(), j, i)
        invariant Undoable(plan, live.tree, backup.tree, j) == Undoable(plan, before, backup.tree, j)
      {
        i := i - 1;
        var item := j.touched[i];
        if item !in plan.items {
          return Err(UnsafePath);
        }
        ghost var d := Now();
        o := RestoreItem(j, item);
        OtherItemsKept(plan, d.live, live.tree, item);
        OnlyWithinTrans(before, d.live, live.tree, ItemSet(plan));
        ReachesTrans(Recoverer, plan, start, d, Now());
        if !o.Ok? { return; }
        UndoableKept(plan, d.live, live.tree, backup.tree, j, item);
        UndoneOneMore(plan, d, Now(), j, i);
      }
      UndoneAll(plan, Now(), j);
    }

    /** The body of the reverse loop. */
    method RestoreItem(j: Journal, item: Path) returns (o: Outcome)
      requires Valid() && item in plan.items && item in j.touched && journal == Some(j.(state := RollingBack))
      modifies live
      ensures OnlyAt(old(live.tree), live.tree, item)
      ensures ReachesBy(Recoverer, plan, old(Now()), Now())
      ensures o.Ok? ==> Restored(Now(), j, item) && Restorable(live.tree, backup.tree, j, item)
      ensures reliable ==> !o.Crashed? && (o.Ok? <==> old(Restorable(live.tree, backup.tree, j, item)))
      ensures o.Ok? ==> old(Restorable(live.tree, backup.tree, j, item))
    {
      ghost var d0 := Now();
      ReachesSelf(Recoverer, plan, d0);
      OnlyAtRefl(live.tree, item);
      if !CanMake(live.tree, item) { return Err(Io); }
      if item in j.existing {
        if At(backup.tree, item) == None { return Err(Recovery); }
        var source := At(backup.tree, item).value;
        if source.Dir? {
          o := live.RemoveTree(item);
          if Now() != d0 {
            ReachesStep(Recoverer, plan, d0, Restore(item), d0, Now());
          }
          if !o.Ok? { return; }
          CanMakeStable(d0.live, live.tree, item);
        }
        ghost var d1 := Now();
        CopyIsExactIffCovered(At(live.tree, item), source);
        ghost var tries;
        var transient: nat -> bool, late: nat -> nat := *, *;
        o, tries := live.CopyTreeWithRetry(source, item, transient, late);
        OnlyAtTrans(d0.live, d1.live, live.tree, item);
        ReachesStep(Recoverer, plan, d0, Restore(item), d1, Now());
        CanMakeStable(d1.live, live.tree, item);
        if o.Ok? { ExistingCanMake(live.tree, item); }
      } else {
        o := live.RemoveTree(item);
        if Now() != d0 {
          ReachesStep(Recoverer, plan, d0, Restore(item), d0, Now());
        }
        CanMakeStable(d0.live, live.tree, item);
      }
    }

    /** `recover_installation`: resume or start the rollback of whatever was left behind. */
    method RecoverInstallation() returns (o: Outcome)
      requires Valid()
      modifies this`journal, live
      ensures ReachesBy(Recoverer, plan, old(Now()), Now())
      ensures old(busy) ==> o == Err(Busy) && Now() == old(Now())
      ensures old(Terminal(Now())) ==> Now() == old(Now())
      ensures o.Ok? ==> if old(Terminal(Now())) then InAny(Now(), {Committed, RolledBack}) else In(Now(), RolledBack)
      ensures reliable && !busy ==>
                && !o.Crashed?
                && (o.Ok? <==> old(|| InAny(Now(), {Committed, RolledBack})
                                   || (journal.Some? && Undoable(plan, live.tree, backup.tree, journal.value))))
      ensures o.Ok? && old(!Terminal(Now())) ==>
                forall item | item in plan.items :: At(live.tree, item) == old(Target(Now(), journal.value, item))
    {
      ReachesSelf(Recoverer, plan, Now());
      if busy { return Err(Busy); }
      if journal == None { return Err(Io); }
      if journal.value.state in {Committed, RolledBack} { return Ok; }
      o := Rollback();
    }

    /** `rollback`: load the journal, whatever its state, and undo what it lists. */
    method Rollback() returns (o: Outcome)
      requires Valid()
      modifies this`journal, live
      ensures OnlyWithin(old(live.tree), live.tree, ItemSet(plan))
      ensures old(!Terminal(Now())) ==> ReachesBy(Recoverer, plan, old(Now()), Now())
      ensures o.Ok? ==> old(journal.Some?) && In(Now(), RolledBack)
      ensures o.Ok? ==>
                forall item | item in plan.items :: At(live.tree, item) == old(Target(Now(), journal.value, item))
      ensures reliable ==>
                !o.Crashed? && (o.Ok? <==> old(journal.Some? && Undoable(plan, live.tree, backup.tree, journal.value)))
    {
      NothingChanged(plan, live.tree);
      if journal == None { return Err(Io); }
      var j := journal.value;
      ghost var d0 := Now();
      ghost var d1 := Save(d0, j.(state := RollingBack));
      ReachesSelf(Recoverer, plan, d0);
      if !Terminal(d0) { UnfinishedRollsBack(plan, d0, j); }
      o := RollbackInner(j);
      if Now() != d0 && !Terminal(d0) { ReachesTrans(Recoverer, plan, d0, d1, Now()); }
      if o.Ok? { RolledBackToTarget(plan, d1, Now()); }
    }

    /** `discard_finished_installation`: no program file is involved, finished or interrupted. */
    method DiscardFinishedInstallation() returns (o: Outcome)
      requires Valid()
      modifies this`journal, this`present, stage, backup
      ensures ReachesBy(Anyone, plan, old(Now()), Now())
      ensures old(busy) ==> o == Err(Busy)
      ensures !o.Ok? && old(busy || !InAny(Now(), {Prepared, RolledBack, Committed})) ==>
                Now() == old(Now()) && present == old(present)
      ensures o.Ok? ==>
                !present && (old(present) ==> journal == None && old(InAny(Now(), {Prepared, RolledBack, Committed})))
      ensures o.Ok? && old(present) ==> stage.tree == Dir(map[]) && backup.tree == Dir(map[])
      ensures reliable && !busy ==>
                !o.Crashed? && (o.Ok? <==> old(!present || InAny(Now(), {Prepared, RolledBack, Committed})))
    {
      ghost var d0 := Now();
      ReachesSelf(Anyone, plan, d0);
      if busy { return Err(Busy); }
      if !present { return Ok; }
      if journal == None { return Err(Io); }
      if journal.value.state !in {Committed, RolledBack, Prepared} { return Err(Recovery); }
      o := RemoveTransaction();
      assert Does(plan, Discard, d0, Now());
      ReachesStep(Anyone, plan, d0, Discard, d0, Now());
    }

    /** `remove_tree` of the transaction directory; cut short, it may have removed anything of it. */
    method RemoveTransaction() returns (o: Outcome)
      requires Valid()
      modifies this`journal, this`present, stage, backup
      ensures forall item | item in plan.items :: Shrunk(old(At(backup.tree, item)), At(backup.tree, item))
      ensures journal == old(journal) || journal == None
      ensures stage.tree == Dir(map[]) || PartOf(Some(stage.tree), old(stage.tree))
      ensures o.Ok? ==> !present && journal == None && stage.tree == Dir(map[]) && backup.tree == Dir(map[])
      ensures !o.Ok? ==> present == old(present)
      ensures reliable ==> o.Ok?
    {
      forall item | item in plan.items && At(backup.tree, item).Some?
        ensures PartOf(At(backup.tree, item), At(backup.tree, item).value)
      {
        CopyIsExactIffCovered(None, At(backup.tree, item).value);
        OverlayIsMid(None, At(backup.tree, item).value);
      }
      o := Fault(reliable);
      if !o.Ok? {
        var someStage, someBackup: Tree := *, *;
        if * { journal := None; }
        stage.tree := if PartOf(Some(someStage), stage.tree) then someStage else Dir(map[]);
        if forall item | item in plan.items :: Shrunk(At(backup.tree, item), At(someBackup, item)) {
          backup.tree := someBackup;
        }
        return;
      }
      journal, present := None, false;
      stage.tree, backup.tree := Dir(map[]), Dir(map[]);
    }

    /** The part of `arm` that holds the lock: copy the prepared stage beside the program, verify
        the copy, then create the journal. The program itself is not touched. */
    method Arm(prepared: Tree) returns (o: Outcome, ghost cleanup: Outcome)
      requires Valid() && prepared.Dir?
      requires !present ==> journal == None && stage.tree == Dir(map[]) && backup.tree == Dir(map[])
      modifies this`journal, this`present, stage, backup
      ensures old(busy || present) ==> !o.Ok? && Now() == old(Now())
      ensures !old(present) ==> Inv(plan, live.tree, Now())
      ensures o.Ok? ==> Start(plan, live.tree, Now()) && stage.tree == prepared && VerifiedStage(plan, prepared)
      ensures o.Ok? ==> backup.tree == old(backup.tree) && present
      ensures reliable ==> !o.Crashed? && (o.Ok? <==> old(!busy && !present) && VerifiedStage(plan, prepared))
      ensures reliable && !o.Ok? && old(!busy && !present) ==> !present && Now() == old(Now())
      ensures !present ==> Now() == old(Now())
      ensures o.Err? && cleanup.Ok? && old(!busy && !present) ==> !present
    {
      hide Inv, VerifiedStage;
      cleanup := Ok;
      if !present { HalfArmedIsSafe(plan, Now()); }
      if busy { return Err(Busy), cleanup; }
      if present { return Err(Recovery), cleanup; }
      o := Fault(reliable);
      if !o.Ok? { return; }
      present := true;
      CopyIsExactIffCovered(None, prepared);
      CopyIsExactIffCovered(Some(Dir(map[])), prepared);
      o := stage.CopyTree(prepared, []);
      if o.Ok? { o := VerifyStage(); }
      if o.Ok? { o := SaveJournal(Journal(Prepared, [], {})); }
      if o.Ok? { o := Fault(reliable); }
      if o.Err? {
        var removed := RemoveTransaction();
        cleanup := removed;
        if removed.Crashed? { o := Crashed; }
      }
      HalfArmedIsSafe(plan, Now());
    }

    /** `finish`, for the two states the helper writes with it. */
    method Finish(state: InstallState) returns (o: Outcome)
      modifies this`journal
      ensures journal == old(journal) || (old(journal).Some? && journal == Some(old(journal).value.(state := state)))
      ensures o.Ok? ==> old(journal).Some? && journal == Some(old(journal).value.(state := state))
      ensures reliable ==> (o.Ok? <==> old(journal).Some?)
    {
      if journal == None { return Err(Io); }
      o := SaveJournal(journal.value.(state := state));
    }
  }

  /** While a portable update is under way, everything it touched can be undone. */
  lemma ArmedIsUndoable(plan: Plan, pre: Tree, d: Disk, j: Journal)
    requires WellFormed(plan) && !plan.bundle && OnlyWithin(pre, d.live, ItemSet(plan)) && Armed(plan, pre, d, j)
    ensures Undoable(plan, d.live, d.backup, j)
  {
    forall item | item in j.touched ensures item in plan.items && Restorable(d.live, d.backup, j, item) {
      ItemsStayClear(plan, pre, d.live, item);
    }
  }

  /** In every reachable state of a portable update that is neither finished nor discarded, an
      uninterrupted recovery succeeds. A bundle's can fail only where the old program was a
      single file and a directory stands in its place. */
  lemma RecoveryCompletes(plan: Plan, pre: Tree, d: Disk)
    requires Inv(plan, pre, d) && d.journal.Some? && !Terminal(d)
    ensures !plan.bundle ==> Undoable(plan, d.live, d.backup, d.journal.value)
    ensures Undoable(plan, d.live, d.backup, d.journal.value) <==>
              forall item | item in d.journal.value.touched :: IsFile(At(pre, item)) ==> !IsDir(At(d.live, item))
  {
    var j := d.journal.value;
    if Armed(plan, pre, d, j) {
      if !plan.bundle { ArmedIsUndoable(plan, pre, d, j); }
      forall item | item in j.touched
        ensures Restorable(d.live, d.backup, j, item) <==> (IsFile(At(pre, item)) ==> !IsDir(At(d.live, item)))
      { ItemsStayClear(plan, pre, d.live, item); }
    }
  }

  lemma BackUpPossibleKept(plan: Plan, d: Disk, d': Disk, i: nat)
    requires WellFormed(plan) && i < |plan.items| && OnlyAt(d.backup, d'.backup, plan.items[i])
    requires d' == d.(backup := d'.backup) && BackUpPossible(d, plan.items[i])
    ensures AllBackUpPossible(plan, d', i + 1) == AllBackUpPossible(plan, d, i)
  {
    forall k | i < k < |plan.items| ensures BackUpPossible(d', plan.items[k]) == BackUpPossible(d, plan.items[k]) {
      CanMakeApart(d.backup, d'.backup, plan.items[i], plan.items[k]);
    }
  }

  lemma ReplacePossibleKept(plan: Plan, t: Tree, t': Tree, i: nat)
    requires WellFormed(plan) && i < |plan.items| && OnlyAt(t, t', plan.items[i])
    requires ReplacePossible(plan, t, plan.items[i])
    ensures AllReplacePossible(plan, t', i + 1) == AllReplacePossible(plan, t, i)
  {
    OtherItemsKept(plan, t, t', plan.items[i]);
    forall k | i < k < |plan.items|
      ensures ReplacePossible(plan, t', plan.items[k]) == ReplacePossible(plan, t, plan.items[k])
    {
      assert Apart(plan.items[i], plan.items[k]);
      CanMakeApart(t, t', plan.items[i], plan.items[k]);
    }
  }

  lemma InstalledOneMore(plan: Plan, staged: Tree, t: Tree, t': Tree, i: nat)
    requires WellFormed(plan) && VerifiedStage(plan, staged) && i < |plan.items|
    requires OnlyAt(t, t', plan.items[i]) && At(t', plan.items[i]) == At(staged, plan.items[i])
    requires InstalledBelow(plan, t, i)
    ensures InstalledBelow(plan, t', i + 1)
  {
    OtherItemsKept(plan, t, t', plan.items[i]);
    forall k | 0 <= k < i + 1 ensures Installed(plan, t', plan.items[k]) {
      if k == i { InstalledFromStage(plan, staged, t', plan.items[i]); }
      else { InstalledByTree(plan, t, t', plan.items[k]); }
    }
  }

  /** One more replacing action on a disk reached so far. */
  lemma Replaces(plan: Plan, pre: Tree, item: Path, d0: Disk, d: Disk, d': Disk)
    requires Inv(plan, pre, d) && ReachesBy(Applier, plan, d0, d) && Does(plan, Replace(item), d, d')
    ensures Inv(plan, pre, d') && ReachesBy(Applier, plan, d0, d')
  {
    ReplaceKeepsInv(plan, pre, item, d, d');
    ReachesStep(Applier, plan, d0, Replace(item), d, d');
  }

  lemma RolledBackToTarget(plan: Plan, d: Disk, d': Disk)
    requires WellFormed(plan) && ReachesBy(Recoverer, plan, d, d') && In(d, RollingBack) && In(d', RolledBack)
    ensures forall item | item in plan.items :: At(d'.live, item) == Target(d, d.journal.value, item)
  {
    var run :| IsRunBy(Recoverer, plan, run) && run[0] == d && run[|run| - 1] == d';
    RollbackIsRestartable(plan, run);
  }
}
