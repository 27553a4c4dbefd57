/** The install transaction as it exists on disk. Every durable action that src/install.rs
    performs is one step, so a crash is simply the end of a run at any point, and the process
    that comes next starts from whatever the disk then holds. */
module Transactions {
  import opened Outcomes
  import opened Paths
  import opened Trees
  import opened Manifests

  datatype InstallState =
    | Prepared
    | Applying
    | AwaitingConfirmation
    | Committed
    | RollingBack
    | RolledBack
    | Failed

  datatype Journal = Journal(state: InstallState, touched: seq<Path>, existing: set<Path>)

  /** The installation directory outside `.freshen`, and the transaction directory's stage,
      backup and journal; no journal means no readable transaction. */
  datatype Disk = Disk(live: Tree, stage: Tree, backup: Tree, journal: Option<Journal>)

  /** The verified plan: the replaced items, and the signed inventory they come from. A bundle is
      one directory item; a portable layout has one item for every file. `digest` stands for
      the hexadecimal SHA-256 of a content. */
  datatype Plan = Plan(bundle: bool, items: seq<Path>, files: seq<PackageFile>, digest: Bytes -> string)

  ghost predicate WellFormed(plan: Plan) {
    && plan.files != []
    && (forall i | 0 <= i < |plan.items| :: plan.items[i] != [])
    && (forall i, j | 0 <= i < |plan.items| && 0 <= j < |plan.items| && i != j :: Apart(plan.items[i], plan.items[j]))
    && (!plan.bundle ==> plan.items == seq(|plan.files|, i requires 0 <= i < |plan.files| => FilePath(plan.files[i])))
    && (plan.bundle ==> |plan.items| == 1 && forall i | 0 <= i < |plan.files| ::
           plan.items[0] < FilePath(plan.files[i]))
  }

  ghost function ItemSet(plan: Plan): set<Path> { set item | item in plan.items }

  /** There is a regular file, and it is what the signed manifest says of `f`. */
  predicate Matches(plan: Plan, f: PackageFile, t: Option<Tree>) { IsFile(t) && Intact(f, t.value.bytes, plan.digest) }

  predicate Declared(plan: Plan, q: Path) { exists i :: 0 <= i < |plan.files| && FilePath(plan.files[i]) == q }

  /** At and beneath `item`, the regular files are exactly the signed ones. */
  ghost predicate Installed(plan: Plan, t: Tree, item: Path) {
    && (forall i | 0 <= i < |plan.files| && item <= FilePath(plan.files[i]) ::
          Matches(plan, plan.files[i], At(t, FilePath(plan.files[i]))))
    && (forall q: Path | item <= q && FileAt(t, q).Some? :: Declared(plan, q))
  }

  /** The whole tree holds exactly the signed files. */
  ghost predicate VerifiedStage(plan: Plan, stage: Tree) {
    && (forall i | 0 <= i < |plan.files| :: Matches(plan, plan.files[i], At(stage, FilePath(plan.files[i]))))
    && (forall q: Path | FileAt(stage, q).Some? :: Declared(plan, q))
  }

  ghost predicate AllOld(plan: Plan, pre: Tree, live: Tree) {
    forall item | item in plan.items :: At(live, item) == At(pre, item)
  }

  ghost predicate AllNew(plan: Plan, live: Tree) {
    forall item | item in plan.items :: Installed(plan, live, item)
  }

  // ---------------------------------------------------------------------------
  // Steps

  datatype Step =
    | BackUp(item: Path)
    | BeginApplying
    | Touch
    | Replace(item: Path)
    | Await
    | BeginRollback(intent: bool)
    | Restore(item: Path)
    | EndRollback
    | Commit
    | Fail
    | Discard

  predicate In(d: Disk, s: InstallState) { d.journal.Some? && d.journal.value.state == s }

  predicate InAny(d: Disk, ss: set<InstallState>) { d.journal.Some? && d.journal.value.state in ss }

  function Save(d: Disk, j: Journal): Disk { d.(journal := Some(j)) }

  /** The journal that records the intent to replace one more item. */
  function Intended(plan: Plan, j: Journal): Journal {
    if |j.touched| < |plan.items| then j.(touched := j.touched + [plan.items[|j.touched|]]) else j
  }

  /** The intent to replace an item is recorded only after those before it have been replaced. */
  ghost predicate NextIsDue(plan: Plan, d: Disk, j: Journal) {
    forall item | item in j.touched :: Installed(plan, d.live, item)
  }

  predicate Restored(d: Disk, j: Journal, item: Path) {
    At(d.live, item) == if item in j.existing then At(d.backup, item) else None
  }

  /** What one restoring action, finished or not, may leave at an item: what was absent is removed,
      a file is put back in one rename, a directory is removed and then copied. */
  predicate Restoring(before: Option<Tree>, backup: Option<Tree>, after: Option<Tree>) {
    || after == before
    || match backup
       case None => before.Some? && PartOf(after, before.value)
       case Some(File(_, _)) => after == backup && !IsDir(before)
       case Some(Dir(_)) => if before.Some? then PartOf(after, before.value) else PartOf(after, backup.value)
  }

  predicate Shrunk(before: Option<Tree>, after: Option<Tree>) {
    if before.Some? then PartOf(after, before.value) else after == None
  }

  ghost predicate Does(plan: Plan, s: Step, d: Disk, d': Disk) {
    match s
    case BackUp(item) =>
      && In(d, Prepared) && item in plan.items && At(d.live, item).Some?
      && OnlyAt(d.backup, d'.backup, item)
      && Mid(At(d.backup, item), At(d.live, item).value, At(d'.backup, item))
      && d' == d.(backup := d'.backup)
    case BeginApplying =>
      && In(d, Prepared)
      && var present := set item | item in plan.items && At(d.live, item).Some?;
         && (forall item | item in plan.items :: CanMake(d.live, item))
         && (forall item | item in present :: At(d.backup, item) == At(d.live, item))
         && d' == Save(d, d.journal.value.(state := Applying, existing := d.journal.value.existing + present))
    case Touch =>
      In(d, Applying) && NextIsDue(plan, d, d.journal.value) && d' == Save(d, Intended(plan, d.journal.value))
    case Replace(item) =>
      && In(d, Applying) && item in plan.items
      && d.journal.value.touched != [] && item == d.journal.value.touched[|d.journal.value.touched| - 1]
      && OnlyAt(d.live, d'.live, item)
      && (if plan.bundle then At(d'.live, item) in {At(d.live, item), None, At(d.stage, item)}
          else IsFile(At(d.stage, item)) && d'.stage == d.stage
               && Mid(At(d.live, item), At(d.stage, item).value, At(d'.live, item)))
      && d' == d.(live := d'.live, stage := d'.stage)
    case Await =>
      && In(d, Applying) && d.journal.value.touched == plan.items && AllNew(plan, d.live)
      && d' == Save(d, d.journal.value.(state := AwaitingConfirmation))
    case BeginRollback(intent) =>
      && InAny(d, {Prepared, Applying, AwaitingConfirmation, RollingBack, Failed})
      && (intent ==> In(d, Applying) && NextIsDue(plan, d, d.journal.value))
      && d' == Save(d, (if intent then Intended(plan, d.journal.value) else d.journal.value).(state := RollingBack))
    case Restore(item) =>
      && In(d, RollingBack) && item in plan.items && item in d.journal.value.touched
      && OnlyAt(d.live, d'.live, item)
      && d' == d.(live := d'.live)
      && var backup := if item in d.journal.value.existing then At(d.backup, item) else None;
         Restoring(At(d.live, item), backup, At(d'.live, item))
    case EndRollback =>
      && In(d, RollingBack)
      && (forall item | item in d.journal.value.touched :: item in plan.items && Restored(d, d.journal.value, item))
      && d' == Save(d, d.journal.value.(state := RolledBack))
    case Commit =>
      In(d, AwaitingConfirmation) && d' == Save(d, d.journal.value.(state := Committed))
    case Fail =>
      InAny(d, {AwaitingConfirmation, RollingBack}) && d' == Save(d, d.journal.value.(state := Failed))
    case Discard =>
      && InAny(d, {Prepared, RolledBack, Committed})
      && (forall item | item in plan.items :: Shrunk(At(d.backup, item), At(d'.backup, item)))
      && (d'.stage == Dir(map[]) || PartOf(Some(d'.stage), d.stage))
      && (d'.journal == d.journal || d'.journal == None)
      && d'.live == d.live
  }

  /** Who acts: the calls of `apply`, those of a recovery, or any process at all. */
  datatype Actor = Applier | Recoverer | Anyone

  predicate RecoveryStep(s: Step) { s == BeginRollback(false) || s.Restore? || s.EndRollback? }

  predicate ApplyStep(s: Step) {
    RecoveryStep(s) || s.BackUp? || s.BeginApplying? || s.Touch? || s.Replace? || s.Await? || s.BeginRollback?
  }

  predicate MayTake(a: Actor, s: Step) {
    match a
    case Applier => ApplyStep(s)
    case Recoverer => RecoveryStep(s)
    case Anyone => true
  }

  ghost predicate NextBy(a: Actor, plan: Plan, d: Disk, d': Disk) { exists s :: MayTake(a, s) && Does(plan, s, d, d') }

  ghost predicate IsRunBy(a: Actor, plan: Plan, run: seq<Disk>) {
    |run| > 0 && forall i | 0 <= i < |run| - 1 :: NextBy(a, plan, run[i], run[i + 1])
  }

  /** A run of whatever processes there are. */
  ghost predicate IsRun(plan: Plan, run: seq<Disk>) { IsRunBy(Anyone, plan, run) }

  /** Freshly armed: a verified stage, a prepared journal, no backup yet, the program still the old one. */
  ghost predicate Start(plan: Plan, pre: Tree, d: Disk) {
    && WellFormed(plan)
    && d.live == pre
    && VerifiedStage(plan, d.stage)
    && d.backup == Dir(map[])
    && d.journal == Some(Journal(Prepared, [], {}))
  }

  // ---------------------------------------------------------------------------
  // The invariant

  /** The journal is backed by durable material for undoing everything it mentions. */
  ghost predicate Armed(plan: Plan, pre: Tree, d: Disk, j: Journal) {
    && j.touched <= plan.items
    && (forall item :: item in j.existing <==> item in plan.items && At(pre, item).Some?)
    && (forall item | item in j.existing :: At(d.backup, item) == At(pre, item))
    && (forall item | item in plan.items :: CanMake(pre, item))
    && (forall item | item in plan.items && item !in j.touched :: At(d.live, item) == At(pre, item))
    && (!plan.bundle ==> forall item | item in plan.items :: IsDir(At(d.live, item)) ==> IsDir(At(pre, item)))
  }

  /** Nothing was touched and nothing recorded: a rollback that began before `apply` did. */
  ghost predicate Untouched(plan: Plan, pre: Tree, d: Disk, j: Journal) {
    j.touched == [] && j.existing == {} && AllOld(plan, pre, d.live)
  }

  ghost predicate Inv(plan: Plan, pre: Tree, d: Disk) {
    && WellFormed(plan)
    && OnlyWithin(pre, d.live, ItemSet(plan))
    && match d.journal
       case None => AllOld(plan, pre, d.live) || AllNew(plan, d.live)
       case Some(j) =>
         match j.state
         case Prepared =>
           Untouched(plan, pre, d, j) && forall item | item in plan.items :: Shrunk(At(pre, item), At(d.backup, item))
         case Applying => Armed(plan, pre, d, j)
         case AwaitingConfirmation => Armed(plan, pre, d, j) && j.touched == plan.items && AllNew(plan, d.live)
         case RollingBack => Armed(plan, pre, d, j) || Untouched(plan, pre, d, j)
         case Failed => Armed(plan, pre, d, j) || Untouched(plan, pre, d, j)
         case RolledBack => AllOld(plan, pre, d.live)
         case Committed => AllNew(plan, d.live)
  }

  lemma OtherItemsKept(plan: Plan, t: Tree, t': Tree, item: Path)
    requires WellFormed(plan) && item in plan.items && OnlyAt(t, t', item)
    ensures forall other | other in plan.items && other != item :: At(t', other) == At(t, other)
    ensures OnlyWithin(t, t', ItemSet(plan))
  {
    forall other | other in plan.items && other != item ensures At(t', other) == At(t, other) {
      assert Kept(t, t', item, other);
    }
    OnlyAtWithin(t, t', item, ItemSet(plan));
  }

  /** Whether an item is installed depends on its own tree only. */
  lemma InstalledByTree(plan: Plan, t: Tree, t': Tree, item: Path)
    requires Installed(plan, t, item) && At(t', item) == At(t, item)
    ensures Installed(plan, t', item)
  {
    forall q: Path | item <= q ensures At(t', q) == At(t, q) {
      assert q == item + q[|item|..];
      AtAppend(t, item, q[|item|..]);
      AtAppend(t', item, q[|item|..]);
    }
  }

  /** A verified stage holds every item, as a regular file in a portable layout. */
  lemma StagedItem(plan: Plan, stage: Tree, item: Path)
    requires WellFormed(plan) && VerifiedStage(plan, stage) && item in plan.items
    ensures At(stage, item).Some? && (!plan.bundle ==> IsFile(At(stage, item)))
  {
    if plan.bundle {
      assert Matches(plan, plan.files[0], At(stage, FilePath(plan.files[0])));
      if At(stage, item) == None { AtBeneath(stage, item, FilePath(plan.files[0])); }
    } else {
      var i :| 0 <= i < |plan.items| && plan.items[i] == item;
      assert Matches(plan, plan.files[i], At(stage, FilePath(plan.files[i])));
    }
  }

  lemma InstalledFromStage(plan: Plan, stage: Tree, live: Tree, item: Path)
    requires VerifiedStage(plan, stage) && At(live, item) == At(stage, item)
    ensures Installed(plan, live, item)
  {
    assert Installed(plan, stage, item);
    InstalledByTree(plan, stage, live, item);
  }

  /** The content at `f`'s path is what the manifest says. */
  lemma MatchesIff(plan: Plan, f: PackageFile, t: Option<Tree>)
    ensures Matches(plan, f, t) <==>
              IsFile(t) && |t.value.bytes| == f.size && SameButCase(plan.digest(t.value.bytes), f.sha256)
  {
    if IsFile(t) { IntactIff(f, t.value.bytes, plan.digest); }
  }

  /** The signed content of `f` lies at its path. */
  predicate SignedAt(plan: Plan, f: PackageFile, t: Tree) {
    && IsFile(At(t, Split(f.path)))
    && var bytes := At(t, Split(f.path)).value.bytes;
       |bytes| == f.size && SameButCase(plan.digest(bytes), f.sha256)
  }

  lemma DeclaredIff(plan: Plan, q: Path)
    ensures Declared(plan, q) <==> exists f :: f in plan.files && Split(f.path) == q
  {
    if Declared(plan, q) {
      var i :| 0 <= i < |plan.files| && FilePath(plan.files[i]) == q;
      assert plan.files[i] in plan.files;
    }
  }

  /** The regular files at and beneath `item` are the declared ones, as signed. */
  ghost predicate SignedBeneath(plan: Plan, t: Tree, item: Path) {
    && (forall f | f in plan.files && item <= Split(f.path) :: SignedAt(plan, f, t))
    && (forall q: Path | item <= q && IsFile(At(t, q)) :: exists f :: f in plan.files && Split(f.path) == q)
  }

  /** What an installed item is. */
  lemma InstalledIff(plan: Plan, t: Tree, item: Path)
    ensures Installed(plan, t, item) <==> SignedBeneath(plan, t, item)
  {
    forall f | f in plan.files
      ensures SignedAt(plan, f, t) <==> Matches(plan, f, At(t, FilePath(f)))
    { MatchesIff(plan, f, At(t, FilePath(f))); }
    hide Matches, SignedAt;
    forall q: Path
      ensures Declared(plan, q) <==> exists f :: f in plan.files && Split(f.path) == q
      ensures IsFile(At(t, q)) <==> FileAt(t, q).Some?
    { DeclaredIff(plan, q); }
    if Installed(plan, t, item) {
      forall f | f in plan.files && item <= Split(f.path) ensures SignedAt(plan, f, t) {
        var i :| 0 <= i < |plan.files| && plan.files[i] == f;
        assert Matches(plan, plan.files[i], At(t, FilePath(plan.files[i])));
      }
      forall q: Path | item <= q && IsFile(At(t, q)) ensures exists f :: f in plan.files && Split(f.path) == q {
        assert FileAt(t, q).Some?;
      }
    }
    if SignedBeneath(plan, t, item) {
      forall i | 0 <= i < |plan.files| && item <= FilePath(plan.files[i])
        ensures Matches(plan, plan.files[i], At(t, FilePath(plan.files[i])))
      { assert plan.files[i] in plan.files; }
      forall q: Path | item <= q && FileAt(t, q).Some? ensures Declared(plan, q) { assert IsFile(At(t, q)); }
    }
  }

  /** Which stages are verified: everything in them is signed, and everything signed is in them. */
  lemma VerifiedStageIff(plan: Plan, stage: Tree)
    ensures VerifiedStage(plan, stage) <==> SignedBeneath(plan, stage, [])
  {
    InstalledIff(plan, stage, []);
    assert VerifiedStage(plan, stage) <==> Installed(plan, stage, []);
  }

  lemma StartInv(plan: Plan, pre: Tree, d: Disk)
    requires Start(plan, pre, d)
    ensures Inv(plan, pre, d)
  {
    forall item | item in plan.items ensures At(d.backup, item) == None {}
  }

  lemma BackUpKeepsInv(plan: Plan, pre: Tree, item: Path, d: Disk, d': Disk)
    requires Inv(plan, pre, d) && Does(plan, BackUp(item), d, d')
    ensures Inv(plan, pre, d')
  {
    OtherItemsKept(plan, d.backup, d'.backup, item);
    MidTrans(None, At(pre, item).value, At(d.backup, item), At(d'.backup, item));
  }

  /** Nothing an update does puts a file above an item or takes one away. */
  lemma ItemsStayClear(plan: Plan, pre: Tree, live: Tree, item: Path)
    requires WellFormed(plan) && item in plan.items && OnlyWithin(pre, live, ItemSet(plan))
    ensures CanMake(live, item) <==> CanMake(pre, item)
  {
    forall i | 0 <= i < |item| ensures IsFile(At(live, item[..i])) <==> IsFile(At(pre, item[..i])) {
      assert KeptAll(pre, live, ItemSet(plan), item[..i]);
      forall p | p in ItemSet(plan) ensures !(p <= item[..i]) { assert p <= item[..i] ==> p <= item; }
    }
  }

  lemma IntentNext(plan: Plan, j: Journal, i: nat)
    requires i < |plan.items| && j.touched == plan.items[..i]
    ensures j.touched + [plan.items[i]] == plan.items[..i + 1]
    ensures Intended(plan, j) == j.(touched := plan.items[..i + 1])
  {
  }

  lemma IntentKeepsArmed(plan: Plan, pre: Tree, d: Disk, j: Journal)
    requires Armed(plan, pre, d, j)
    ensures Armed(plan, pre, d, Intended(plan, j))
  {
  }

  lemma ReplaceKeepsInv(plan: Plan, pre: Tree, item: Path, d: Disk, d': Disk)
    requires Inv(plan, pre, d) && Does(plan, Replace(item), d, d')
    ensures Inv(plan, pre, d')
  {
    OtherItemsKept(plan, d.live, d'.live, item);
    OnlyWithinTrans(pre, d.live, d'.live, ItemSet(plan));
  }

  lemma RestoreKeepsInv(plan: Plan, pre: Tree, item: Path, d: Disk, d': Disk)
    requires Inv(plan, pre, d) && Does(plan, Restore(item), d, d')
    ensures Inv(plan, pre, d')
  {
    OtherItemsKept(plan, d.live, d'.live, item);
    OnlyWithinTrans(pre, d.live, d'.live, ItemSet(plan));
  }

  lemma DiscardKeepsInv(plan: Plan, pre: Tree, d: Disk, d': Disk)
    requires Inv(plan, pre, d) && Does(plan, Discard, d, d')
    ensures Inv(plan, pre, d')
  {
    if In(d', Prepared) {
      forall item | item in plan.items ensures Shrunk(At(pre, item), At(d'.backup, item)) {
        if At(pre, item).Some? && At(d.backup, item).Some? {
          PartTrans(At(pre, item).value, At(d.backup, item).value, At(d'.backup, item));
        }
      }
    }
  }

  predicate OnlyJournal(s: Step) { s.Await? || s.EndRollback? || s.Commit? || s.Fail? }

  lemma BeginApplyingKeepsInv(plan: Plan, pre: Tree, d: Disk, d': Disk)
    requires Inv(plan, pre, d) && Does(plan, BeginApplying, d, d')
    ensures Inv(plan, pre, d')
  {
    forall item | item in plan.items ensures CanMake(pre, item) { ItemsStayClear(plan, pre, d.live, item); }
  }

  lemma JournalKeepsInv(plan: Plan, pre: Tree, s: Step, d: Disk, d': Disk)
    requires Inv(plan, pre, d) && Does(plan, s, d, d') && OnlyJournal(s)
    ensures Inv(plan, pre, d')
  {
  }

  lemma IntentKeepsInv(plan: Plan, pre: Tree, s: Step, d: Disk, d': Disk)
    requires Inv(plan, pre, d) && Does(plan, s, d, d') && (s.Touch? || s.BeginRollback?)
    ensures Inv(plan, pre, d')
  {
    if s.Touch? || s.intent { IntentKeepsArmed(plan, pre, d, d.journal.value); }
  }

  /** Every durable action of every process keeps the invariant. */
  lemma StepKeepsInv(plan: Plan, pre: Tree, s: Step, d: Disk, d': Disk)
    requires Inv(plan, pre, d) && Does(plan, s, d, d')
    ensures Inv(plan, pre, d')
  {
    match s
    case BackUp(item) => BackUpKeepsInv(plan, pre, item, d, d');
    case Replace(item) => ReplaceKeepsInv(plan, pre, item, d, d');
    case Restore(item) => RestoreKeepsInv(plan, pre, item, d, d');
    case Discard => DiscardKeepsInv(plan, pre, d, d');
    case BeginApplying => BeginApplyingKeepsInv(plan, pre, d, d');
    case Touch => IntentKeepsInv(plan, pre, s, d, d');
    case BeginRollback(_) => IntentKeepsInv(plan, pre, s, d, d');
    case _ => JournalKeepsInv(plan, pre, s, d, d');
  }
}
