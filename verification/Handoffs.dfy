/** src/helper.rs and the locking calls of src/install.rs: parents, helpers, confirming processes and
    maintenance processes (recovery or discarding) as one machine of interleaved steps over the
    shared disk, through any number of transactions one after the other. Every process may die
    between any two of its steps, and the lock dies with its holder. */
module Handoffs {
  import opened Outcomes
  import Paths
  import opened Trees
  import opened Manifests
  import opened Transactions
  import opened CrashSafety

  /** What all transactions of the machine have in common: the artifact and the policy, hence the
      plan, and the manifest's entry for the executable that must confirm. */
  datatype Setup = Setup(plan: Plan, executable: PackageFile)

  /** Where the helper that holds the lock is in `execute`. */
  datatype HelperAt =
    | Verifying
    | PollCancel         // top of the loop that waits for the parent's exit
    | PollExit
    | PollExitClock
    | Recheck            // exit seen, marker about to be read again
    | ApplyRunning
    | ApplyFailed
    | Relaunching
    | PollConfirmed      // top of the loop that waits for confirmation
    | PollChild
    | PollConfirmClock
    | UndoRunning
    | Leaving

  /** Who holds the lock, and where in its work it is. Transactions are known by their tokens. */
  datatype Holder = NoOne | Arming | Helper(token: nat, at: HelperAt) | Maintaining(recovering: bool)

  datatype HelperState = NotSpawned | Started | Loaded | Running | Ended

  /** The processes of one armed transaction. A helper is `Started` as long as it has not read the
      plan, and then `Loaded` until it takes the lock; its parent may be gone before either. */
  datatype Session = Session(parentAlive: bool, helper: HelperState)

  /** The transaction directory beside what `Disk` holds: the token in `plan.json` and the markers. */
  datatype Site = Site(present: bool, plan: Option<nat>, ready: Option<nat>, cancel: bool, confirmed: Option<nat>)

  /** How far a call of `confirm_startup` has got. */
  datatype ConfirmAt = TokenMatched | HashMatched | Entitled | Returned

  /** A process that calls `confirm_startup` with some token in its environment. */
  datatype Confirmer = Confirmer(token: nat, at: ConfirmAt)

  /** What has happened since the last transaction was armed: a helper of another transaction took
      the lock, `apply` found the journal prepared. */
  datatype Past = Past(stale: bool, applied: bool)

  /** Everything but the disk. The transaction armed last is the last session. */
  datatype World = World(lock: Holder, sessions: seq<Session>, site: Site, confirmers: seq<Confirmer>, past: Past)

  /** `pre` is the program as it was when the last transaction was armed. */
  datatype Moment = Moment(disk: Disk, world: World, pre: Tree)

  /** `arm`: complete, or broken off with some part of it left behind, by a process that may live on;
      and the end of its hold on the lock. */
  datatype ArmMove = Arms | ArmBreaks(alive: bool, planned: bool) | ArmReleases

  /** `launch` copies the helper into the transaction directory, which puts back a directory that
      has been removed, and then starts it; either may fail. */
  datatype ParentMove = Spawns | Cancels | Exits

  /** The helper up to the call of `apply`; `Ends` is also its crash at any later point. */
  datatype HandoffMove =
    | Loads
    | Locks
    | SaysReady
    | SeesNoCancel
    | SeesParentAlive
    | SeesParentGone
    | Sleeps
    | StartsApply
    | Ends

  datatype InstallMove =
    | ApplyActs(step: Step)
    | ApplyReturnsOk
    | ApplyReturnsErr
    | MarksFailed
    | StartsChild
    | RelaunchFails
    | UndoActs(step: Step)

  datatype ConfirmationMove = SeesConfirmed | SeesUnconfirmed | SeesChildAlive | SeesChildGone | SleepsAgain | TimesOut

  datatype ConfirmMove = ChecksToken(token: nat) | ChecksHash(n: nat) | ChecksState(n: nat) | WritesMarker(n: nat)

  datatype MaintenanceMove = TakesLock | Recovers(step: Step) | Discards | Releases

  datatype Event =
    | Arm(a: ArmMove)
    | Parent(t: nat, p: ParentMove)
    | Handoff(t: nat, h: HandoffMove)
    | Install(t: nat, i: InstallMove)
    | Confirmation(t: nat, n: ConfirmationMove)
    | Confirm(k: ConfirmMove)
    | Maintenance(m: MaintenanceMove)

  function Last(w: World): int { |w.sessions| - 1 }

  predicate AwaitsConfirmation(h: HelperAt) { h.PollConfirmed? || h.PollChild? || h.PollConfirmClock? }

  predicate Working(h: HelperAt) { h.ApplyRunning? || h.Relaunching? || AwaitsConfirmation(h) || h.UndoRunning? }

  predicate PastExit(h: HelperAt) { h.Recheck? || Working(h) || h.ApplyFailed? }

  /** `finish` writes the state it is told to write, over whatever the journal says. */
  predicate Finishes(d: Disk, s: InstallState, d': Disk) {
    d' == d || (d.journal.Some? && d' == Save(d, d.journal.value.(state := s)))
  }

  predicate HashMatches(plan: Plan, f: PackageFile, t: Option<Tree>) {
    IsFile(t) && Paths.Fold(plan.digest(t.value.bytes)) == Paths.Fold(f.sha256)
  }

  lemma HashMatchesIff(plan: Plan, f: PackageFile, t: Option<Tree>)
    ensures HashMatches(plan, f, t) <==> IsFile(t) && SameButCase(plan.digest(t.value.bytes), f.sha256)
  {
    if IsFile(t) { FoldsAgree(plan.digest(t.value.bytes), f.sha256); }
  }

  // ---------------------------------------------------------------------------
  // What each process can do, and what that does to everything but the disk

  function Moved(w: World, t: nat, at: HelperAt): World { w.(lock := Helper(t, at)) }

  function Resessioned(w: World, t: nat, s: Session): World
    requires t < |w.sessions|
  {
    w.(sessions := w.sessions[t := s])
  }

  predicate ArmMoves(a: ArmMove, w: World, w': World) {
    match a
    case Arms =>
      && w.lock.NoOne? && !w.site.present
      && w' == World(Arming, w.sessions + [Session(true, NotSpawned)],
                     Site(true, Some(|w.sessions|), None, false, None), w.confirmers, Past(false, false))
    case ArmBreaks(alive, planned) =>
      && w.lock.NoOne? && !w.site.present
      && w' == World(NoOne, w.sessions + [Session(alive, Ended)],
                     Site(true, if planned then Some(|w.sessions|) else None, None, false, None),
                     w.confirmers, Past(false, false))
    case ArmReleases => w.lock.Arming? && w' == w.(lock := NoOne)
  }

  predicate ParentMoves(t: nat, p: ParentMove, w: World, w': World) {
    && t < |w.sessions| && w.sessions[t].parentAlive
    && match p
       case Spawns =>
         && w.sessions[t].helper.NotSpawned? && !(w.lock.Arming? && t == Last(w))
         && var copied := w.(site := w.site.(present := true));
            || w' == Resessioned(copied, t, Session(true, Started))
            || w' == Resessioned(copied, t, Session(true, Ended))
            || w' == Resessioned(w, t, Session(true, Ended))
       case Cancels => w.site.present && w' == w.(site := w.site.(cancel := true))
       case Exits =>
         w' == Resessioned(w, t, w.sessions[t].(parentAlive := false)).(lock :=
           if w.lock.Arming? && t == Last(w) then NoOne else w.lock)
  }

  ghost predicate HandoffMoves(c: Setup, t: nat, h: HandoffMove, d: Disk, w: World, w': World) {
    && t < |w.sessions|
    && match h
       case Loads =>
         && w.sessions[t].helper.Started? && w.site.plan == Some(t)
         && w' == Resessioned(w, t, w.sessions[t].(helper := Loaded))
       case Locks =>
         && w.sessions[t].helper.Loaded? && w.lock.NoOne?
         && w' == Resessioned(w, t, w.sessions[t].(helper := Running)).(
                    lock := Helper(t, Verifying), past := w.past.(stale := w.past.stale || t != Last(w)))
       case SaysReady =>
         && w.lock == Helper(t, Verifying) && w.site.present && VerifiedStage(c.plan, d.stage)
         && w' == Moved(w, t, PollCancel).(site := w.site.(ready := Some(t)))
       case SeesNoCancel => w.lock == Helper(t, PollCancel) && !w.site.cancel && w' == Moved(w, t, PollExit)
       case SeesParentAlive => w.lock == Helper(t, PollExit) && w' == Moved(w, t, PollExitClock)
       case SeesParentGone => w.lock == Helper(t, PollExit) && !w.sessions[t].parentAlive && w' == Moved(w, t, Recheck)
       case Sleeps => w.lock == Helper(t, PollExitClock) && w' == Moved(w, t, PollCancel)
       case StartsApply =>
         && w.lock == Helper(t, Recheck) && !w.site.cancel
         && w' == Moved(w, t, if In(d, Prepared) then ApplyRunning else ApplyFailed).(past :=
                    w.past.(applied := w.past.applied || In(d, Prepared)))
       case Ends =>
         && w.sessions[t].helper in {Started, Loaded, Running}
         && w' == Resessioned(w, t, w.sessions[t].(helper := Ended)).(lock :=
                    if w.lock.Helper? && w.lock.token == t then NoOne else w.lock)
  }

  predicate InstallMoves(t: nat, i: InstallMove, state: Option<InstallState>, w: World, w': World) {
    match i
    case ApplyActs(s) => w.lock == Helper(t, ApplyRunning) && ApplyStep(s) && w' == w
    case ApplyReturnsOk =>
      w.lock == Helper(t, ApplyRunning) && state == Some(AwaitingConfirmation) && w' == Moved(w, t, Relaunching)
    case ApplyReturnsErr => w.lock == Helper(t, ApplyRunning) && w' == Moved(w, t, ApplyFailed)
    case MarksFailed => w.lock == Helper(t, ApplyFailed) && state == Some(RollingBack) && w' == Moved(w, t, Leaving)
    case StartsChild => w.lock == Helper(t, Relaunching) && w' == Moved(w, t, PollConfirmed)
    case RelaunchFails => w.lock == Helper(t, Relaunching) && w' == Moved(w, t, UndoRunning)
    case UndoActs(s) => w.lock == Helper(t, UndoRunning) && RecoveryStep(s) && w' == w
  }

  predicate ConfirmationMoves(t: nat, n: ConfirmationMove, w: World, w': World) {
    match n
    case SeesConfirmed =>
      w.lock == Helper(t, PollConfirmed) && w.site.confirmed == Some(t) && w' == Moved(w, t, Leaving)
    case SeesUnconfirmed =>
      w.lock == Helper(t, PollConfirmed) && w.site.confirmed != Some(t) && w' == Moved(w, t, PollChild)
    case SeesChildAlive => w.lock == Helper(t, PollChild) && w' == Moved(w, t, PollConfirmClock)
    case SeesChildGone => w.lock == Helper(t, PollChild) && w' == Moved(w, t, UndoRunning)
    case SleepsAgain => w.lock == Helper(t, PollConfirmClock) && w' == Moved(w, t, PollConfirmed)
    case TimesOut => w.lock == Helper(t, PollConfirmClock) && w' == Moved(w, t, Leaving)
  }

  function Advanced(w: World, n: nat, at: ConfirmAt): World
    requires n < |w.confirmers|
  {
    w.(confirmers := w.confirmers[n := w.confirmers[n].(at := at)])
  }

  /** Any process whatever may call `confirm_startup`, with whatever token it has. */
  predicate ConfirmMoves(c: Setup, k: ConfirmMove, d: Disk, w: World, w': World) {
    match k
    case ChecksToken(token) =>
      w.site.plan == Some(token) && w' == w.(confirmers := w.confirmers + [Confirmer(token, TokenMatched)])
    case ChecksHash(n) =>
      && n < |w.confirmers| && w.confirmers[n].at.TokenMatched?
      && HashMatches(c.plan, c.executable, At(d.live, FilePath(c.executable)))
      && w' == Advanced(w, n, HashMatched)
    case ChecksState(n) =>
      && n < |w.confirmers| && w.confirmers[n].at.HashMatched?
      && In(d, AwaitingConfirmation) && w' == Advanced(w, n, Entitled)
    case WritesMarker(n) =>
      && n < |w.confirmers| && w.confirmers[n].at.Entitled? && w.site.present
      && w' == Advanced(w, n, Returned).(site := w.site.(confirmed := Some(w.confirmers[n].token)))
  }

  /** What a discard, finished or not, leaves of the directory. */
  predicate Discarded(s: Site, s': Site) {
    || s' == Site(false, None, None, false, None)
    || (s'.present && (s'.cancel ==> s.cancel) && (s'.plan == s.plan || s'.plan == None)
        && (s'.ready == s.ready || s'.ready == None) && (s'.confirmed == s.confirmed || s'.confirmed == None))
  }

  predicate MaintenanceMoves(m: MaintenanceMove, w: World, w': World) {
    match m
    case TakesLock => w.lock.NoOne? && w' == w.(lock := Maintaining(false))
    case Recovers(s) =>
      && w.lock.Maintaining? && w.site.plan.Some?
      && (if w.lock.recovering then RecoveryStep(s) else s == BeginRollback(false))
      && w' == w.(lock := Maintaining(true))
    case Discards =>
      && w.lock == Maintaining(false) && w.site.present
      && Discarded(w.site, w'.site) && w' == w.(site := w'.site)
    case Releases => w.lock.Maintaining? && w' == w.(lock := NoOne)
  }

  /** When an event can happen and what it does to everything but the disk. */
  ghost predicate Controls(c: Setup, e: Event, d: Disk, w: World, w': World) {
    match e
    case Arm(a) => ArmMoves(a, w, w')
    case Parent(t, p) => ParentMoves(t, p, w, w')
    case Handoff(t, h) => HandoffMoves(c, t, h, d, w, w')
    case Install(t, i) => InstallMoves(t, i, StateOf(d), w, w')
    case Confirmation(t, n) => ConfirmationMoves(t, n, w, w')
    case Confirm(k) => ConfirmMoves(c, k, d, w, w')
    case Maintenance(m) => MaintenanceMoves(m, w, w')
  }

  /** What an event does to the disk. */
  ghost predicate Changes(c: Setup, e: Event, d: Disk, d': Disk, w': World) {
    match e
    case Arm(Arms) => Start(c.plan, d.live, d')
    case Arm(ArmBreaks(_, _)) =>
      && d' == Disk(d.live, d'.stage, Dir(map[]), d'.journal)
      && (d'.journal == None || d'.journal == Some(Journal(Prepared, [], {})))
    case Install(_, ApplyActs(s)) => Does(c.plan, s, d, d')
    case Install(_, UndoActs(s)) => Does(c.plan, s, d, d')
    case Install(_, MarksFailed) => Finishes(d, Failed, d')
    case Confirmation(_, TimesOut) => Finishes(d, Failed, d')
    case Confirmation(_, SeesConfirmed) => Finishes(d, Committed, d')
    case Maintenance(Recovers(s)) => Does(c.plan, s, d, d')
    case Maintenance(Discards) => Does(c.plan, Discard, d, d') && (!w'.site.present ==> d'.journal == None)
    case _ => d' == d
  }

  predicate BeginsTransaction(e: Event) { e.Arm? && !e.a.ArmReleases? }

  /** One event takes one moment to the next. */
  ghost predicate Happens(c: Setup, e: Event, m: Moment, m': Moment) {
    && Controls(c, e, m.disk, m.world, m'.world)
    && Changes(c, e, m.disk, m'.disk, m'.world)
    && m'.pre == if BeginsTransaction(e) then m.disk.live else m.pre
  }

  /** No transaction yet, and nobody at work. */
  ghost predicate Begins(c: Setup, m: Moment) {
    && WellFormed(c.plan) && c.executable in c.plan.files
    && m.disk.journal == None && m.pre == m.disk.live
    && m.world == World(NoOne, [], Site(false, None, None, false, None), [], Past(false, false))
  }

  ghost predicate HappensAt(c: Setup, ms: seq<Moment>, es: seq<Event>, i: nat)
    requires |ms| == |es| + 1 && i < |es|
  {
    Happens(c, es[i], ms[i], ms[i + 1])
  }

  /** One event after the other, from any moment on. */
  ghost predicate IsPath(c: Setup, ms: seq<Moment>, es: seq<Event>) {
    && |ms| == |es| + 1
    && (forall i: nat {:trigger HappensAt(c, ms, es, i)} | i < |es| :: HappensAt(c, ms, es, i))
  }

  ghost predicate IsHistory(c: Setup, ms: seq<Moment>, es: seq<Event>) { IsPath(c, ms, es) && Begins(c, ms[0]) }

  // ---------------------------------------------------------------------------
  // The invariant

  /** Nothing has been installed yet: the program is untouched and so is the journal's list. */
  ghost predicate Quiet(pre: Tree, d: Disk) {
    && d.live == pre
    && (d.journal.Some? ==> d.journal.value.touched == [] && InAny(d, {Prepared, RollingBack, RolledBack, Failed}))
  }

  /** What is known of the lock's holder if it is a helper. */
  predicate HelperConsistent(state: Option<InstallState>, w: World) {
    w.lock.Helper? ==>
      && w.lock.token < |w.sessions| && w.sessions[w.lock.token].helper.Running?
      && (!w.past.stale ==> w.lock.token == Last(w))
      && (PastExit(w.lock.at) ==> !w.sessions[w.lock.token].parentAlive)
      && (Working(w.lock.at) ==> w.past.applied)
      && (w.lock.at.Relaunching? || AwaitsConfirmation(w.lock.at) ==> state == Some(AwaitingConfirmation))
  }

  predicate SiteConsistent(state: Option<InstallState>, w: World) {
    && (state.Some? ==> w.site.present)
    && (w.site.plan.Some? ==> w.site.present && w.site.plan.value == Last(w))
    && (w.past.applied && !w.past.stale ==> w.sessions != [] && !w.sessions[Last(w)].parentAlive)
  }

  predicate Consistent(state: Option<InstallState>, w: World) { HelperConsistent(state, w) && SiteConsistent(state, w) }

  ghost predicate Safe(c: Setup, m: Moment) {
    && Inv(c.plan, m.pre, m.disk)
    && Consistent(StateOf(m.disk), m.world)
    && (!m.world.past.applied ==> Quiet(m.pre, m.disk))
  }

  /** The process that makes an event happen holds the lock. */
  predicate ActsUnderLock(e: Event, w: World, w': World) {
    match e
    case Arm(Arms) => w.lock.NoOne? && w'.lock.Arming?
    case Arm(ArmBreaks(_, _)) => w.lock.NoOne?
    case Install(t, _) => w.lock.Helper? && w.lock.token == t
    case Confirmation(t, _) => w.lock.Helper? && w.lock.token == t
    case Maintenance(_) => w.lock.Maintaining?
    case _ => false
  }

  /** Only the lock's holder changes the disk. */
  lemma OnlyHolderChangesDisk(c: Setup, e: Event, m: Moment, m': Moment)
    requires Happens(c, e, m, m')
    ensures m'.disk != m.disk ==> ActsUnderLock(e, m.world, m'.world)
  {
    match e
    case Install(t, i) =>
    case Confirmation(t, n) =>
    case Maintenance(k) =>
    case _ =>
  }

  predicate IsCommit(e: Event) { e.Confirmation? && e.n.SeesConfirmed? }

  /** Every change of the disk but the arming of a transaction is a step of the transaction, although
      `finish` checks nothing. */
  lemma ChangesFollowProtocol(c: Setup, e: Event, d: Disk, w: World, d': Disk, w': World)
    requires Consistent(StateOf(d), w) && Controls(c, e, d, w, w') && Changes(c, e, d, d', w') && !BeginsTransaction(e)
    ensures d' == d || exists s :: Does(c.plan, s, d, d') && (s.Commit? ==> IsCommit(e))
  {
    match e
    case Install(_, ApplyActs(s)) => assert Does(c.plan, s, d, d');
    case Install(_, UndoActs(s)) => assert Does(c.plan, s, d, d');
    case Install(_, MarksFailed) => FinishIsStep(c.plan, Fail, Failed, d, d');
    case Confirmation(_, TimesOut) => FinishIsStep(c.plan, Fail, Failed, d, d');
    case Confirmation(_, SeesConfirmed) => FinishIsStep(c.plan, Commit, Committed, d, d');
    case Maintenance(Recovers(s)) => assert Does(c.plan, s, d, d');
    case Maintenance(Discards) => assert Does(c.plan, Discard, d, d');
    case _ =>
  }

  lemma FinishIsStep(plan: Plan, s: Step, state: InstallState, d: Disk, d': Disk)
    requires Finishes(d, state, d')
    requires (s == Fail && state == Failed && InAny(d, {AwaitingConfirmation, RollingBack}))
          || (s == Commit && state == Committed && In(d, AwaitingConfirmation))
    ensures d' == d || Does(plan, s, d, d')
  {
  }

  lemma OnlyCommitCommits(plan: Plan, s: Step, d: Disk, d': Disk)
    requires Does(plan, s, d, d') && In(d', Committed) && !In(d, Committed)
    ensures s == Commit
  {
  }

  lemma ArmConsistent(a: ArmMove, state: Option<InstallState>, w: World, state': Option<InstallState>, w': World)
    requires Consistent(state, w) && ArmMoves(a, w, w')
    requires state' == state || a.Arms? || a.ArmBreaks?
    ensures Consistent(state', w')
  {
  }

  lemma ParentConsistent(t: nat, p: ParentMove, state: Option<InstallState>, w: World, w': World)
    requires Consistent(state, w) && ParentMoves(t, p, w, w')
    ensures Consistent(state, w')
  {
  }

  lemma HandoffConsistent(c: Setup, t: nat, h: HandoffMove, d: Disk, w: World, w': World)
    requires Consistent(StateOf(d), w) && HandoffMoves(c, t, h, d, w, w')
    ensures Consistent(StateOf(d), w')
  {
    hide VerifiedStage;
  }

  lemma InstallConsistent(t: nat, i: InstallMove, state: Option<InstallState>, w: World, state': Option<InstallState>,
                          w': World)
    requires Consistent(state, w) && InstallMoves(t, i, state, w, w')
    requires state' == state || i.ApplyActs? || i.UndoActs? || i.MarksFailed?
    requires state'.Some? ==> state.Some?
    ensures Consistent(state', w')
  {
  }

  lemma ConfirmationConsistent(t: nat, n: ConfirmationMove, state: Option<InstallState>, w: World,
                               state': Option<InstallState>,
                               w': World)
    requires Consistent(state, w) && ConfirmationMoves(t, n, w, w')
    requires state' == state || n.TimesOut? || n.SeesConfirmed?
    requires state'.Some? ==> state.Some?
    ensures Consistent(state', w')
  {
  }

  lemma ConfirmConsistent(c: Setup, k: ConfirmMove, d: Disk, w: World, w': World)
    requires Consistent(StateOf(d), w) && ConfirmMoves(c, k, d, w, w')
    ensures Consistent(StateOf(d), w')
  {
  }

  lemma MaintenanceConsistent(m: MaintenanceMove, state: Option<InstallState>, w: World, state': Option<InstallState>,
                              w': World)
    requires Consistent(state, w) && MaintenanceMoves(m, w, w')
    requires state' == state || m.Recovers? || m.Discards?
    requires state'.Some? ==> state.Some? && w'.site.present
    ensures Consistent(state', w')
  {
  }

  predicate DiskEvent(e: Event) {
    match e
    case Install(_, i) => i.ApplyActs? || i.UndoActs? || i.MarksFailed?
    case Confirmation(_, n) => n.TimesOut? || n.SeesConfirmed?
    case Maintenance(m) => m.Recovers? || m.Discards?
    case _ => false
  }

  /** No step brings a journal back. */
  lemma StepKeepsNone(plan: Plan, s: Step, d: Disk, d': Disk)
    requires Does(plan, s, d, d')
    ensures d'.journal.Some? ==> d.journal.Some?
  {
  }

  lemma JournalStaysNone(c: Setup, e: Event, d: Disk, w: World, d': Disk, w': World)
    requires Consistent(StateOf(d), w) && Controls(c, e, d, w, w') && Changes(c, e, d, d', w') && !BeginsTransaction(e)
    ensures d'.journal.Some? ==> d.journal.Some?
    ensures e == Maintenance(Discards) && d'.journal.Some? ==> w'.site.present
    ensures d' == d || DiskEvent(e)
  {
    ChangesFollowProtocol(c, e, d, w, d', w');
    if d' != d {
      var s :| Does(c.plan, s, d, d');
      StepKeepsNone(c.plan, s, d, d');
    }
  }

  /** The bookkeeping survives every event. */
  lemma ControlKeepsConsistent(c: Setup, e: Event, d: Disk, w: World, d': Disk, w': World)
    requires Consistent(StateOf(d), w) && Controls(c, e, d, w, w') && Changes(c, e, d, d', w')
    ensures Consistent(StateOf(d'), w')
  {
    hide Does, Inv, VerifiedStage, Start, Consistent;
    var state, state' := StateOf(d), StateOf(d');
    if !BeginsTransaction(e) { JournalStaysNone(c, e, d, w, d', w'); }
    SiteOf(state, w);
    match e {
      case Arm(a) => ArmConsistent(a, state, w, state', w');
      case Parent(t, p) => ParentConsistent(t, p, state, w, w');
      case Handoff(t, h) => HandoffConsistent(c, t, h, d, w, w');
      case Install(t, i) => InstallConsistent(t, i, state, w, state', w');
      case Confirmation(t, n) => ConfirmationConsistent(t, n, state, w, state', w');
      case Confirm(k) => ConfirmConsistent(c, k, d, w, w');
      case Maintenance(m) => MaintenanceConsistent(m, state, w, state', w');
    }
  }

  lemma SiteOf(state: Option<InstallState>, w: World)
    requires Consistent(state, w)
    ensures state.Some? ==> w.site.present
  {
  }

  lemma RecoveryStaysQuiet(pre: Tree, plan: Plan, s: Step, d: Disk, d': Disk)
    requires Quiet(pre, d) && Does(plan, s, d, d') && (RecoveryStep(s) || s == Discard)
    ensures Quiet(pre, d')
  {
  }

  lemma EventKeepsQuiet(c: Setup, e: Event, m: Moment, m': Moment)
    requires Consistent(StateOf(m.disk), m.world) && Happens(c, e, m, m') && !m'.world.past.applied
    requires !m.world.past.applied ==> Quiet(m.pre, m.disk)
    ensures Quiet(m'.pre, m'.disk)
  {
    match e {
      case Arm(a) =>
      case Parent(t, p) =>
      case Handoff(t, h) =>
      case Install(t, i) =>
      case Confirmation(t, n) =>
      case Confirm(k) =>
      case Maintenance(Recovers(s)) => RecoveryStaysQuiet(m.pre, c.plan, s, m.disk, m'.disk);
      case Maintenance(Discards) => RecoveryStaysQuiet(m.pre, c.plan, Discard, m.disk, m'.disk);
      case Maintenance(k) =>
    }
  }

  lemma ArmKeepsInv(c: Setup, a: ArmMove, m: Moment, m': Moment)
    requires WellFormed(c.plan) && Happens(c, Arm(a), m, m') && !a.ArmReleases?
    ensures Inv(c.plan, m'.pre, m'.disk)
  {
    forall q: Path ensures KeptAll(m.disk.live, m.disk.live, ItemSet(c.plan), q) {}
    if a.Arms? { StartInv(c.plan, m.disk.live, m'.disk); }
  }

  lemma EventKeepsInv(c: Setup, e: Event, m: Moment, m': Moment)
    requires Safe(c, m) && Happens(c, e, m, m')
    ensures Inv(c.plan, m'.pre, m'.disk)
    ensures BeginsTransaction(e) || m'.disk == m.disk || NextBy(Anyone, c.plan, m.disk, m'.disk)
  {
    if BeginsTransaction(e) {
      ArmKeepsInv(c, e.a, m, m');
    } else {
      ChangesFollowProtocol(c, e, m.disk, m.world, m'.disk, m'.world);
      if m'.disk != m.disk {
        var s :| Does(c.plan, s, m.disk, m'.disk);
        StepKeepsInv(c.plan, m.pre, s, m.disk, m'.disk);
        assert MayTake(Anyone, s);
      }
    }
  }

  /** Every event of every process keeps the machine safe, and moves the disk by a step of the
      transaction, or not at all, or by arming a new transaction. */
  lemma EventKeepsSafe(c: Setup, e: Event, m: Moment, m': Moment)
    requires Safe(c, m) && Happens(c, e, m, m')
    ensures Safe(c, m')
    ensures BeginsTransaction(e) || m'.disk == m.disk || NextBy(Anyone, c.plan, m.disk, m'.disk)
  {
    hide Inv, Controls, Changes, Consistent, Quiet;
    EventKeepsInv(c, e, m, m');
    ControlKeepsConsistent(c, e, m.disk, m.world, m'.disk, m'.world);
    if !m'.world.past.applied { EventKeepsQuiet(c, e, m, m'); }
  }

  lemma BeginIsSafe(c: Setup, m: Moment)
    requires Begins(c, m)
    ensures Safe(c, m)
  {
    forall q: Path ensures KeptAll(m.disk.live, m.disk.live, ItemSet(c.plan), q) {}
  }

  lemma {:induction false} PathIsSafe(c: Setup, ms: seq<Moment>, es: seq<Event>, i: nat)
    requires IsPath(c, ms, es) && i < |ms| && Safe(c, ms[0])
    ensures Safe(c, ms[i])
  {
    hide Safe, Happens;
    if i == 0 {
    } else {
      PathIsSafe(c, ms, es, i - 1);
      assert HappensAt(c, ms, es, i - 1);
      EventKeepsSafe(c, es[i - 1], ms[i - 1], ms[i]);
    }
  }

  /** Every moment of every interleaving is safe. */
  lemma HistoryIsSafe(c: Setup, ms: seq<Moment>, es: seq<Event>, i: nat)
    requires IsHistory(c, ms, es) && i < |ms|
    ensures Safe(c, ms[i])
  {
    BeginIsSafe(c, ms[0]);
    PathIsSafe(c, ms, es, i);
  }

  // ---------------------------------------------------------------------------
  // Looking back in a history

  lemma SafeAround(c: Setup, ms: seq<Moment>, es: seq<Event>, i: nat)
    requires IsHistory(c, ms, es) && i < |es|
    ensures Safe(c, ms[i]) && Safe(c, ms[i + 1]) && Happens(c, es[i], ms[i], ms[i + 1])
  {
    HistoryIsSafe(c, ms, es, i);
    HistoryIsSafe(c, ms, es, i + 1);
    assert HappensAt(c, ms, es, i);
  }

  /** Sessions are only ever added, one whenever a transaction begins. */
  lemma SessionStep(c: Setup, e: Event, m: Moment, m': Moment)
    requires Happens(c, e, m, m')
    ensures |m'.world.sessions| == |m.world.sessions| + if BeginsTransaction(e) then 1 else 0
    ensures BeginsTransaction(e) ==> !m.world.site.present && m'.pre == m.disk.live
    ensures !BeginsTransaction(e) ==> m'.pre == m.pre
  {
  }

  lemma {:induction false} SessionsGrow(c: Setup, ms: seq<Moment>, es: seq<Event>, i: nat, j: nat)
    requires IsPath(c, ms, es) && i <= j < |ms|
    ensures |ms[i].world.sessions| <= |ms[j].world.sessions|
  {
    if i == j {
    } else {
      SessionsGrow(c, ms, es, i, j - 1);
      assert HappensAt(c, ms, es, j - 1);
      SessionStep(c, es[j - 1], ms[j - 1], ms[j]);
    }
  }

  /** `pre` is the program as the arming of the last transaction found it. */
  lemma {:induction false} PreWhenArmed(c: Setup, ms: seq<Moment>, es: seq<Event>, i: nat) returns (k: nat)
    requires IsHistory(c, ms, es) && i < |ms| && ms[i].world.sessions != []
    ensures k < i && BeginsTransaction(es[k]) && ms[i].pre == ms[k].disk.live
    ensures |ms[k + 1].world.sessions| == |ms[i].world.sessions|
  {
    assert HappensAt(c, ms, es, i - 1);
    SessionStep(c, es[i - 1], ms[i - 1], ms[i]);
    if BeginsTransaction(es[i - 1]) { k := i - 1; } else { k := PreWhenArmed(c, ms, es, i - 1); }
  }

  lemma StaleStep(c: Setup, e: Event, m: Moment, m': Moment)
    requires Happens(c, e, m, m') && m'.world.past.stale
    ensures !BeginsTransaction(e)
    ensures m.world.past.stale || (e.Handoff? && e.h.Locks? && e.t != Last(m.world))
  {
  }

  /** `stale` means that a helper of another transaction has taken the lock in this one. */
  lemma {:induction false} StaleByLock(c: Setup, ms: seq<Moment>, es: seq<Event>, i: nat) returns (k: nat)
    requires IsHistory(c, ms, es) && i < |ms| && ms[i].world.past.stale
    ensures k < i && es[k].Handoff? && es[k].h.Locks? && es[k].t != Last(ms[k].world)
    ensures |ms[k].world.sessions| == |ms[i].world.sessions|
  {
    assert HappensAt(c, ms, es, i - 1);
    StaleStep(c, es[i - 1], ms[i - 1], ms[i]);
    SessionStep(c, es[i - 1], ms[i - 1], ms[i]);
    if ms[i - 1].world.past.stale { k := StaleByLock(c, ms, es, i - 1); } else { k := i - 1; }
  }

  // ---------------------------------------------------------------------------
  // Theorems about all histories

  /** While the parent that armed the transaction lives, no program file has changed in any way and
      `apply` has not begun, unless a helper of an earlier transaction took the lock. */
  lemma ParentAliveProgramUntouched(c: Setup, ms: seq<Moment>, es: seq<Event>, i: nat)
    requires IsHistory(c, ms, es) && i < |ms| && ms[i].world.sessions != []
    requires ms[i].world.sessions[Last(ms[i].world)].parentAlive && !ms[i].world.past.stale
    ensures ms[i].disk.live == ms[i].pre && !ms[i].world.past.applied
  {
    HistoryIsSafe(c, ms, es, i);
  }

  /** The journal's states follow the intended graph in every history, although the lock changes
      hands, also between arming and the helper's start; a transaction begins where there was none;
      and whoever changes the disk holds the lock. */
  lemma JournalFollowsGraph(c: Setup, ms: seq<Moment>, es: seq<Event>, i: nat)
    requires IsHistory(c, ms, es) && i < |es|
    ensures if BeginsTransaction(es[i]) then StateOf(ms[i].disk) == None
            else Follows(StateOf(ms[i].disk), StateOf(ms[i + 1].disk))
    ensures ms[i + 1].disk != ms[i].disk ==> ActsUnderLock(es[i], ms[i].world, ms[i + 1].world)
  {
    SafeAround(c, ms, es, i);
    OnlyHolderChangesDisk(c, es[i], ms[i], ms[i + 1]);
    JournalStep(c, es[i], ms[i], ms[i + 1]);
  }

  lemma JournalStep(c: Setup, e: Event, m: Moment, m': Moment)
    requires Safe(c, m) && Happens(c, e, m, m')
    ensures if BeginsTransaction(e) then StateOf(m.disk) == None else Follows(StateOf(m.disk), StateOf(m'.disk))
  {
    hide Inv;
    if BeginsTransaction(e) {
      SiteOf(StateOf(m.disk), m.world);
      SessionStep(c, e, m, m');
    } else {
      ChangesFollowProtocol(c, e, m.disk, m.world, m'.disk, m'.world);
      if m'.disk != m.disk {
        var s :| Does(c.plan, s, m.disk, m'.disk);
        StepFollows(c.plan, s, m.disk, m'.disk);
      }
    }
  }

  /** Crash anywhere, for the whole protocol: whatever the interleaving, through any number of
      transactions, and whoever died where, the journal's verdict and the program agree. */
  lemma VerdictIsTrue(c: Setup, ms: seq<Moment>, es: seq<Event>, i: nat)
    requires IsHistory(c, ms, es) && i < |ms|
    ensures In(ms[i].disk, RolledBack) ==> AllOld(c.plan, ms[i].pre, ms[i].disk.live)
    ensures In(ms[i].disk, Committed) ==> AllNew(c.plan, ms[i].disk.live)
    ensures ms[i].disk.journal == None ==> AllOld(c.plan, ms[i].pre, ms[i].disk.live) || AllNew(c.plan, ms[i].disk.live)
    ensures forall q: Path | (forall item | item in c.plan.items :: !(item <= q)) ::
              FileAt(ms[i].disk.live, q) == FileAt(ms[i].pre, q)
  {
    HistoryIsSafe(c, ms, es, i);
    forall q: Path | forall item | item in c.plan.items :: !(item <= q)
      ensures FileAt(ms[i].disk.live, q) == FileAt(ms[i].pre, q)
    { OtherFilesKept(ms[i].pre, ms[i].disk.live, ItemSet(c.plan), q); }
  }
}
