/** src/helper.rs, `execute` seen from outside: what the helper that holds the lock can bring about by
    its own events, and what a recovery process can when the helper is gone. */
module Outlooks {
  import opened Outcomes
  import opened Trees
  import opened Transactions
  import opened CrashSafety
  import opened Handoffs
  import opened Cancellations
  import opened Installations
  import opened BundleRecovery

  /** An event of the helper of transaction `t`. */
  predicate Own(e: Event, t: nat) {
    match e
    case Handoff(u, _) => u == t
    case Install(u, _) => u == t
    case Confirmation(u, _) => u == t
    case _ => false
  }

  /** That helper alone gets from `m` to `m'`. */
  ghost predicate LeadsAlone(c: Setup, t: nat, m: Moment, m': Moment) {
    exists ms: seq<Moment>, es: seq<Event> ::
      IsPath(c, ms, es) && ms[0] == m && ms[|es|] == m' && forall i | 0 <= i < |es| :: Own(es[i], t)
  }

  lemma AloneSelf(c: Setup, t: nat, m: Moment)
    ensures LeadsAlone(c, t, m, m)
  {
    var ms, es: seq<Event> := [m], [];
    assert IsPath(c, ms, es) && ms[0] == m && ms[|es|] == m;
  }

  lemma AloneOn(c: Setup, t: nat, m0: Moment, m: Moment, e: Event, m': Moment)
    requires LeadsAlone(c, t, m0, m) && Happens(c, e, m, m') && Own(e, t)
    ensures LeadsAlone(c, t, m0, m')
  {
    hide Happens, Own;
    var ms: seq<Moment>, es: seq<Event> :|
      IsPath(c, ms, es) && ms[0] == m0 && ms[|es|] == m && forall i | 0 <= i < |es| :: Own(es[i], t);
    var ms', es' := ms + [m'], es + [e];
    PathExtends(c, ms, es, e, m');
    assert ms'[0] == m0 && ms'[|es'|] == m';
  }

  // ---------------------------------------------------------------------------
  // Where a helper gets that waits for the confirmation, or undoes the update

  /** The helper has ended. */
  predicate Gone(w: World, t: nat) {
    t < |w.sessions| && w.sessions[t].helper.Ended? && !(w.lock.Helper? && w.lock.token == t)
  }

  predicate Marked(d: Disk, s: InstallState, d': Disk) {
    d.journal.Some? && d' == Save(d, d.journal.value.(state := s))
  }

  /** The helper undoes the update, or may come to. */
  predicate Undoes(t: nat, m0: Moment) {
    m0.world.lock == Helper(t, UndoRunning) || m0.world.site.confirmed != Some(t)
  }

  predicate Commits(t: nat, m0: Moment) {
    m0.world.lock != Helper(t, UndoRunning) && m0.world.site.confirmed == Some(t)
  }

  predicate GivesUp(t: nat, m0: Moment) {
    m0.world.lock != Helper(t, UndoRunning) && m0.world.site.confirmed != Some(t)
  }

  /** What has become of the disk `d0`, while the helper waits, undoes, or has finished. */
  ghost predicate Prospect(c: Setup, t: nat, m0: Moment, m: Moment) {
    var d0, d, w := m0.disk, m.disk, m.world;
    && m.pre == m0.pre && w.site == m0.world.site
    && if w.lock.Helper? && w.lock.token == t && AwaitsConfirmation(w.lock.at) then
         d == d0 && m0.world.lock != Helper(t, UndoRunning) && (Commits(t, m0) ==> w.lock.at.PollConfirmed?)
       else if w.lock == Helper(t, UndoRunning) then
         Undoes(t, m0) && ReachesBy(Recoverer, c.plan, d0, d)
       else
         && (w.lock == Helper(t, Leaving) || Gone(w, t))
         && (|| d == d0
             || (Commits(t, m0) && Marked(d0, Committed, d))
             || (GivesUp(t, m0) && Marked(d0, Failed, d))
             || (Undoes(t, m0) && ReachesBy(Recoverer, c.plan, d0, d)))
  }

  lemma AwaitingStep(c: Setup, t: nat, e: Event, m0: Moment, m: Moment, m': Moment)
    requires Happens(c, e, m, m') && Own(e, t) && Prospect(c, t, m0, m)
    requires m.world.lock.Helper? && m.world.lock.token == t && AwaitsConfirmation(m.world.lock.at)
    requires t < |m.world.sessions| && m.world.sessions[t].helper.Running?
    ensures Prospect(c, t, m0, m')
  {
    hide Does, VerifiedStage, ReachesBy;
    ReachesSelf(Recoverer, c.plan, m0.disk);
  }

  lemma UndoingStep(c: Setup, t: nat, e: Event, m0: Moment, m: Moment, m': Moment)
    requires Happens(c, e, m, m') && Own(e, t) && Prospect(c, t, m0, m)
    requires m.world.lock == Helper(t, UndoRunning)
    requires t < |m.world.sessions| && m.world.sessions[t].helper.Running?
    ensures Prospect(c, t, m0, m')
  {
    hide Does, VerifiedStage, ReachesBy;
    if e.Install? && e.i.UndoActs? { ReachesStep(Recoverer, c.plan, m0.disk, e.i.step, m.disk, m'.disk); }
  }

  lemma OverStep(c: Setup, t: nat, e: Event, m0: Moment, m: Moment, m': Moment)
    requires Happens(c, e, m, m') && Own(e, t) && Prospect(c, t, m0, m)
    requires m.world.lock == Helper(t, Leaving) || Gone(m.world, t)
    requires m.world.lock.Helper? && m.world.lock.token == t ==>
               t < |m.world.sessions| && m.world.sessions[t].helper.Running?
    ensures Prospect(c, t, m0, m')
  {
    hide Does, VerifiedStage, ReachesBy;
  }

  lemma ProspectStep(c: Setup, t: nat, e: Event, m0: Moment, m: Moment, m': Moment)
    requires Safe(c, m) && Happens(c, e, m, m') && Own(e, t) && Prospect(c, t, m0, m)
    ensures Prospect(c, t, m0, m')
  {
    hide Happens, Inv, Own;
    var at := m.world.lock;
    if at.Helper? && at.token == t && AwaitsConfirmation(at.at) {
      AwaitingStep(c, t, e, m0, m, m');
    } else if at == Helper(t, UndoRunning) {
      UndoingStep(c, t, e, m0, m, m');
    } else {
      OverStep(c, t, e, m0, m, m');
    }
  }

  lemma {:induction false} ProspectAlone(c: Setup, t: nat, ms: seq<Moment>, es: seq<Event>, i: nat)
    requires IsPath(c, ms, es) && i < |ms| && Safe(c, ms[0]) && Prospect(c, t, ms[0], ms[0])
    requires forall k | 0 <= k < |es| :: Own(es[k], t)
    ensures Safe(c, ms[i]) && Prospect(c, t, ms[0], ms[i])
  {
    hide Safe, Happens, Prospect, Own;
    if i == 0 {
    } else {
      ProspectAlone(c, t, ms, es, i - 1);
      assert HappensAt(c, ms, es, i - 1) && Own(es[i - 1], t);
      EventKeepsSafe(c, es[i - 1], ms[i - 1], ms[i]);
      ProspectStep(c, t, es[i - 1], ms[0], ms[i - 1], ms[i]);
    }
  }

  /** What holds wherever the helper gets on its own. */
  lemma ProspectOf(c: Setup, t: nat, m: Moment, m': Moment)
    requires Safe(c, m) && Prospect(c, t, m, m) && LeadsAlone(c, t, m, m')
    ensures Safe(c, m') && Prospect(c, t, m, m')
  {
    hide Safe, Happens, Prospect, Own;
    var ms: seq<Moment>, es: seq<Event> :|
      IsPath(c, ms, es) && ms[0] == m && ms[|es|] == m' && forall i | 0 <= i < |es| :: Own(es[i], t);
    ProspectAlone(c, t, ms, es, |es|);
  }

  // ---------------------------------------------------------------------------
  // The new program has failed

  lemma {:induction false} UndoesAlong(c: Setup, t: nat, m: Moment, run: seq<Disk>, i: nat)
    requires m.world.lock == Helper(t, UndoRunning)
    requires IsRunBy(Recoverer, c.plan, run) && run[0] == m.disk && i < |run|
    ensures LeadsAlone(c, t, m, m.(disk := run[i]))
  {
    hide LeadsAlone;
    if i == 0 {
      AloneSelf(c, t, m);
      assert m.(disk := run[0]) == m;
    } else {
      UndoesAlong(c, t, m, run, i - 1);
      assert NextBy(Recoverer, c.plan, run[i - 1], run[i - 1 + 1]);
      var s :| MayTake(Recoverer, s) && Does(c.plan, s, run[i - 1], run[i]);
      hide Does;
      AloneOn(c, t, m, m.(disk := run[i - 1]), Install(t, UndoActs(s)), m.(disk := run[i]));
    }
  }

  /** The old program is back. */
  ghost predicate IsUndone(c: Setup, m: Moment) { In(m.disk, RolledBack) && AllOld(c.plan, m.pre, m.disk.live) }

  lemma RolledBackIsUndone(c: Setup, m: Moment)
    requires Safe(c, m) && In(m.disk, RolledBack)
    ensures IsUndone(c, m)
  {
  }

  /** A helper that undoes the update gets the old program back by itself exactly if everything
      touched can be restored. */
  lemma UndoneIff(c: Setup, t: nat, m: Moment)
    requires Safe(c, m) && m.world.lock == Helper(t, UndoRunning) && m.disk.journal.Some? && !Terminal(m.disk)
    ensures (exists m' :: LeadsAlone(c, t, m, m') && IsUndone(c, m'))
            <==> Undoable(c.plan, m.disk.live, m.disk.backup, m.disk.journal.value)
  {
    ReachesSelf(Recoverer, c.plan, m.disk);
    RecoverableIff(c.plan, m.pre, m.disk);
    hide Undoable, Inv, Consistent;
    if Recoverable(c.plan, m.disk) {
      var d' :| ReachesBy(Recoverer, c.plan, m.disk, d') && In(d', RolledBack);
      UndoneAlone(c, t, m, d');
    }
    if m' :| LeadsAlone(c, t, m, m') && IsUndone(c, m') {
      ProspectOf(c, t, m, m');
      assert ReachesBy(Recoverer, c.plan, m.disk, m'.disk);
    }
  }

  lemma UndoneAlone(c: Setup, t: nat, m: Moment, d': Disk)
    requires Safe(c, m) && m.world.lock == Helper(t, UndoRunning)
    requires ReachesBy(Recoverer, c.plan, m.disk, d') && In(d', RolledBack)
    ensures LeadsAlone(c, t, m, m.(disk := d')) && IsUndone(c, m.(disk := d'))
  {
    var run :| IsRunBy(Recoverer, c.plan, run) && run[0] == m.disk && run[|run| - 1] == d';
    UndoesAlong(c, t, m, run, |run| - 1);
    hide LeadsAlone;
    ReachesKeepsInv(Recoverer, c.plan, m.pre, m.disk, d');
  }

  /** The new program could not be started, or has gone without confirming. */
  predicate StartFails(e: Event, t: nat) { e == Confirmation(t, SeesChildGone) || e == Install(t, RelaunchFails) }

  lemma StartFailsWhen(c: Setup, t: nat, e: Event, m: Moment, m': Moment)
    requires Safe(c, m) && Happens(c, e, m, m') && StartFails(e, t)
    ensures In(m.disk, AwaitingConfirmation) && m'.disk == m.disk && m'.pre == m.pre
    ensures m'.world.lock == Helper(t, UndoRunning)
  {
    hide Inv;
  }

  /** In every history, when the new program has failed the helper can get the old program back by
      itself, exactly if everything touched can be restored. */
  lemma FailedStartCanBeUndone(c: Setup, ms: seq<Moment>, es: seq<Event>, k: nat, t: nat)
    requires IsHistory(c, ms, es) && k < |es| && StartFails(es[k], t)
    ensures In(ms[k].disk, AwaitingConfirmation) && ms[k + 1].disk == ms[k].disk
    ensures (exists m' :: LeadsAlone(c, t, ms[k + 1], m') && In(m'.disk, RolledBack)
                          && AllOld(c.plan, ms[k].pre, m'.disk.live))
            <==> Undoable(c.plan, ms[k].disk.live, ms[k].disk.backup, ms[k].disk.journal.value)
  {
    SafeAround(c, ms, es, k);
    StartFailsWhen(c, t, es[k], ms[k], ms[k + 1]);
    UndoneIff(c, t, ms[k + 1]);
    hide Safe, Happens, LeadsAlone, Undoable, AllOld, Begins;
    if m' :| LeadsAlone(c, t, ms[k + 1], m') && IsUndone(c, m') { PreStays(c, t, ms[k + 1], m'); }
    if m' :| LeadsAlone(c, t, ms[k + 1], m') && In(m'.disk, RolledBack) && AllOld(c.plan, ms[k].pre, m'.disk.live) {
      PreStays(c, t, ms[k + 1], m');
      assert IsUndone(c, m');
    }
  }

  lemma PreStays(c: Setup, t: nat, m: Moment, m': Moment)
    requires Safe(c, m) && m.world.lock == Helper(t, UndoRunning) && LeadsAlone(c, t, m, m')
    ensures m'.pre == m.pre
  {
    ReachesSelf(Recoverer, c.plan, m.disk);
    hide Safe, LeadsAlone;
    ProspectOf(c, t, m, m');
  }

  lemma UndoingHolds(c: Setup, t: nat, e: Event, m: Moment, m': Moment)
    requires Safe(c, m) && Happens(c, e, m, m') && m.world.lock == Helper(t, UndoRunning)
    requires m'.world.lock.Helper? && m'.world.lock.token == t
    requires InAny(m.disk, {AwaitingConfirmation, RollingBack, RolledBack})
    ensures m'.world.lock == Helper(t, UndoRunning)
    ensures InAny(m'.disk, {AwaitingConfirmation, RollingBack, RolledBack})
  {
    hide Inv, VerifiedStage;
  }

  /** And as long as it holds the lock after that, it does nothing but undo. */
  lemma {:induction false} UndoesUntilItLetsGo(c: Setup, ms: seq<Moment>, es: seq<Event>, k: nat, t: nat, j: nat)
    requires IsHistory(c, ms, es) && k < j < |ms| && StartFails(es[k], t)
    requires forall i | k < i <= j :: ms[i].world.lock.Helper? && ms[i].world.lock.token == t
    ensures ms[j].world.lock == Helper(t, UndoRunning)
    ensures InAny(ms[j].disk, {AwaitingConfirmation, RollingBack, RolledBack})
    decreases j
  {
    hide Safe, Happens, Begins;
    SafeAround(c, ms, es, j - 1);
    if j == k + 1 {
      StartFailsWhen(c, t, es[k], ms[k], ms[j]);
    } else {
      UndoesUntilItLetsGo(c, ms, es, k, t, j - 1);
      UndoingHolds(c, t, es[j - 1], ms[j - 1], ms[j]);
    }
  }

  // ---------------------------------------------------------------------------
  // The helper waits for the confirmation

  /** A helper that waits for the confirmation commits by itself exactly if the marker holds its token. */
  lemma CommitsIff(c: Setup, t: nat, m: Moment)
    requires Safe(c, m) && m.world.lock == Helper(t, PollConfirmed)
    ensures (exists m' :: LeadsAlone(c, t, m, m') && In(m'.disk, Committed)) <==> m.world.site.confirmed == Some(t)
  {
    AloneSelf(c, t, m);
    hide LeadsAlone, Inv;
    if m.world.site.confirmed == Some(t) {
      var m' := Moment(Save(m.disk, m.disk.journal.value.(state := Committed)), Moved(m.world, t, Leaving), m.pre);
      AloneOn(c, t, m, m, Confirmation(t, SeesConfirmed), m');
      assert In(m'.disk, Committed);
    }
    if m' :| LeadsAlone(c, t, m, m') && In(m'.disk, Committed) {
      ProspectOf(c, t, m, m');
      NeverNewlyCommitted(c.plan, m.disk, m'.disk);
    }
  }

  /** It gives up by itself, or undoes the update, only if the marker does not hold its token; it can
      always give up then, and undo if everything can be restored. */
  lemma FailsIff(c: Setup, t: nat, m: Moment)
    requires Safe(c, m) && m.world.lock == Helper(t, PollConfirmed)
    ensures (exists m' :: LeadsAlone(c, t, m, m') && In(m'.disk, Failed)) <==> m.world.site.confirmed != Some(t)
  {
    AloneSelf(c, t, m);
    hide LeadsAlone, Inv;
    if m.world.site.confirmed != Some(t) {
      var m1 := m.(world := Moved(m.world, t, PollChild));
      AloneOn(c, t, m, m, Confirmation(t, SeesUnconfirmed), m1);
      var m2 := m.(world := Moved(m.world, t, PollConfirmClock));
      AloneOn(c, t, m, m1, Confirmation(t, SeesChildAlive), m2);
      var m3 := Moment(Save(m.disk, m.disk.journal.value.(state := Failed)), Moved(m.world, t, Leaving), m.pre);
      AloneOn(c, t, m, m2, Confirmation(t, TimesOut), m3);
      assert In(m3.disk, Failed);
    }
    if m' :| LeadsAlone(c, t, m, m') && In(m'.disk, Failed) {
      ProspectOf(c, t, m, m');
    }
  }

  lemma NeverNewlyCommitted(plan: Plan, d: Disk, d': Disk)
    requires In(d, AwaitingConfirmation)
    ensures ReachesBy(Recoverer, plan, d, d') ==> !In(d', Committed)
  {
    if ReachesBy(Recoverer, plan, d, d') { ReachesWithin(Recoverer, plan, d, d'); }
  }

  /** The waiting helper can undo the update by itself exactly if the marker does not hold its token
      and everything touched can be restored. */
  lemma RollsBackIff(c: Setup, t: nat, m: Moment)
    requires Safe(c, m) && m.world.lock == Helper(t, PollConfirmed)
    ensures (exists m' :: LeadsAlone(c, t, m, m') && IsUndone(c, m'))
            <==> && m.world.site.confirmed != Some(t) && m.disk.journal.Some?
                 && Undoable(c.plan, m.disk.live, m.disk.backup, m.disk.journal.value)
  {
    RecoverableIff(c.plan, m.pre, m.disk);
    hide LeadsAlone, Undoable, Recoverable, Inv;
    if m.world.site.confirmed != Some(t) && Undoable(c.plan, m.disk.live, m.disk.backup, m.disk.journal.value) {
      ThroughChildGone(c, t, m);
    }
    if m' :| LeadsAlone(c, t, m, m') && IsUndone(c, m') { OnlyThroughUndoing(c, t, m, m'); }
  }

  lemma OnlyThroughUndoing(c: Setup, t: nat, m: Moment, m': Moment)
    requires Safe(c, m) && m.world.lock == Helper(t, PollConfirmed)
    requires LeadsAlone(c, t, m, m') && In(m'.disk, RolledBack)
    ensures m.world.site.confirmed != Some(t) && Recoverable(c.plan, m.disk)
  {
    hide LeadsAlone, Inv, ReachesBy;
    ProspectOf(c, t, m, m');
  }

  lemma ThroughChildGone(c: Setup, t: nat, m: Moment)
    requires Safe(c, m) && m.world.lock == Helper(t, PollConfirmed) && m.world.site.confirmed != Some(t)
    requires Recoverable(c.plan, m.disk)
    ensures exists m' :: LeadsAlone(c, t, m, m') && IsUndone(c, m')
  {
    hide Inv;
    AloneSelf(c, t, m);
    var m1 := m.(world := Moved(m.world, t, PollChild));
    AloneOn(c, t, m, m, Confirmation(t, SeesUnconfirmed), m1);
    var m2 := m.(world := Moved(m.world, t, UndoRunning));
    AloneOn(c, t, m, m1, Confirmation(t, SeesChildGone), m2);
    EventKeepsSafe(c, Confirmation(t, SeesUnconfirmed), m, m1);
    EventKeepsSafe(c, Confirmation(t, SeesChildGone), m1, m2);
    var d' :| ReachesBy(Recoverer, c.plan, m.disk, d') && In(d', RolledBack);
    UndoneAlone(c, t, m2, d');
    AloneTrans(c, t, m, m2, m2.(disk := d'));
  }

  lemma AloneTrans(c: Setup, t: nat, m0: Moment, m: Moment, m': Moment)
    requires LeadsAlone(c, t, m0, m) && LeadsAlone(c, t, m, m')
    ensures LeadsAlone(c, t, m0, m')
  {
    hide Happens, Own;
    var ms: seq<Moment>, es: seq<Event> :|
      IsPath(c, ms, es) && ms[0] == m0 && ms[|es|] == m && forall i | 0 <= i < |es| :: Own(es[i], t);
    var ns: seq<Moment>, fs: seq<Event> :|
      IsPath(c, ns, fs) && ns[0] == m && ns[|fs|] == m' && forall i | 0 <= i < |fs| :: Own(fs[i], t);
    var ms', es' := ms + ns[1..], es + fs;
    forall i: nat | i < |es'| ensures HappensAt(c, ms', es', i) {
      if i < |es| { assert HappensAt(c, ms, es, i); } else { assert HappensAt(c, ns, fs, i - |es|); }
    }
    assert IsPath(c, ms', es') && ms'[0] == m0 && ms'[|es'|] == m';
  }

  // ---------------------------------------------------------------------------
  // The helper waits for its parent's exit

  predicate WaitsForExit(h: HelperAt) { h.PollCancel? || h.PollExit? || h.PollExitClock? || h.Recheck? }

  predicate Waiting(t: nat, m0: Moment, m: Moment) {
    var w := m.world;
    if w.lock.Helper? && w.lock.token == t && WaitsForExit(w.lock.at) then
      && m.disk == m0.disk && w.site == m0.world.site
      && t < |w.sessions| && t < |m0.world.sessions|
      && w.sessions[t].parentAlive == m0.world.sessions[t].parentAlive
      && (!w.lock.at.PollCancel? ==> !w.site.cancel)
      && (w.lock.at.Recheck? ==> !w.sessions[t].parentAlive)
    else
      (w.lock.Helper? && w.lock.token == t && !w.lock.at.Verifying?) || (Gone(w, t) && w.lock.NoOne?)
  }

  lemma WaitingStep(c: Setup, t: nat, e: Event, m0: Moment, m: Moment, m': Moment)
    requires Safe(c, m) && Happens(c, e, m, m') && Own(e, t) && Waiting(t, m0, m)
    ensures Waiting(t, m0, m')
  {
    hide Inv, VerifiedStage, Does;
  }

  lemma {:induction false} WaitingAlone(c: Setup, t: nat, ms: seq<Moment>, es: seq<Event>, i: nat)
    requires IsPath(c, ms, es) && i < |ms| && Safe(c, ms[0]) && Waiting(t, ms[0], ms[0])
    requires forall k | 0 <= k < |es| :: Own(es[k], t)
    ensures Safe(c, ms[i]) && Waiting(t, ms[0], ms[i])
  {
    hide Safe, Happens, Waiting, Own;
    if i == 0 {
    } else {
      WaitingAlone(c, t, ms, es, i - 1);
      assert HappensAt(c, ms, es, i - 1) && Own(es[i - 1], t);
      EventKeepsSafe(c, es[i - 1], ms[i - 1], ms[i]);
      WaitingStep(c, t, es[i - 1], ms[0], ms[i - 1], ms[i]);
    }
  }

  /** A waiting helper comes by itself to apply a prepared transaction exactly if there is no marker
      and its parent is gone. */
  lemma BeginsIff(c: Setup, t: nat, m: Moment)
    requires Safe(c, m) && m.world.lock == Helper(t, PollCancel) && In(m.disk, Prepared)
    ensures (exists m' :: LeadsAlone(c, t, m, m') && AboutToApply(m'))
            <==> !m.world.site.cancel && !m.world.sessions[t].parentAlive
  {
    hide Inv;
    if !m.world.site.cancel && !m.world.sessions[t].parentAlive {
      AloneSelf(c, t, m);
      var m1, m2 := m.(world := Moved(m.world, t, PollExit)), m.(world := Moved(m.world, t, Recheck));
      AloneOn(c, t, m, m, Handoff(t, SeesNoCancel), m1);
      AloneOn(c, t, m, m1, Handoff(t, SeesParentGone), m2);
      assert AboutToApply(m2);
    }
    if m' :| LeadsAlone(c, t, m, m') && AboutToApply(m') {
      var ms: seq<Moment>, es: seq<Event> :|
        IsPath(c, ms, es) && ms[0] == m && ms[|es|] == m' && forall i | 0 <= i < |es| :: Own(es[i], t);
      WaitingAlone(c, t, ms, es, |es|);
    }
  }

  // ---------------------------------------------------------------------------
  // Apply has failed

  /** A helper whose `apply` has failed may mark the transaction Failed exactly if the rollback was
      not finished either. */
  lemma MarksIff(c: Setup, t: nat, m: Moment)
    requires Safe(c, m) && m.world.lock == Helper(t, ApplyFailed) && !In(m.disk, Failed)
    ensures (exists m' :: LeadsAlone(c, t, m, m') && In(m'.disk, Failed)) <==> In(m.disk, RollingBack)
  {
    hide Inv;
    if In(m.disk, RollingBack) {
      AloneSelf(c, t, m);
      var m' := Moment(Save(m.disk, m.disk.journal.value.(state := Failed)), Moved(m.world, t, Leaving), m.pre);
      AloneOn(c, t, m, m, Install(t, MarksFailed), m');
      assert In(m'.disk, Failed);
    }
    if m' :| LeadsAlone(c, t, m, m') && In(m'.disk, Failed) {
      var ms: seq<Moment>, es: seq<Event> :|
        IsPath(c, ms, es) && ms[0] == m && ms[|es|] == m' && forall i | 0 <= i < |es| :: Own(es[i], t);
      FailedAlone(c, t, ms, es, |es|);
    }
  }

  predicate AfterFailure(t: nat, m0: Moment, m: Moment) {
    && (m.world.lock == Helper(t, ApplyFailed) || m.world.lock == Helper(t, Leaving) || Gone(m.world, t))
    && (m.disk == m0.disk || In(m0.disk, RollingBack))
    && (m.world.lock == Helper(t, ApplyFailed) ==> m.disk == m0.disk)
  }

  lemma AfterFailureStep(c: Setup, t: nat, e: Event, m0: Moment, m: Moment, m': Moment)
    requires Safe(c, m) && Happens(c, e, m, m') && Own(e, t) && AfterFailure(t, m0, m)
    ensures AfterFailure(t, m0, m')
  {
    hide Inv, VerifiedStage, Does;
  }

  lemma {:induction false} FailedAlone(c: Setup, t: nat, ms: seq<Moment>, es: seq<Event>, i: nat)
    requires IsPath(c, ms, es) && i < |ms| && Safe(c, ms[0]) && AfterFailure(t, ms[0], ms[0])
    requires forall k | 0 <= k < |es| :: Own(es[k], t)
    ensures Safe(c, ms[i]) && AfterFailure(t, ms[0], ms[i])
  {
    hide Safe, Happens, AfterFailure, Own;
    if i == 0 {
    } else {
      FailedAlone(c, t, ms, es, i - 1);
      assert HappensAt(c, ms, es, i - 1) && Own(es[i - 1], t);
      EventKeepsSafe(c, es[i - 1], ms[i - 1], ms[i]);
      AfterFailureStep(c, t, es[i - 1], ms[0], ms[i - 1], ms[i]);
    }
  }

  // ---------------------------------------------------------------------------
  // A recovery process, once the helper is gone

  predicate RecoveryEvent(e: Event) { e.Maintenance? && !e.m.Discards? }

  /** Recovery alone gets from `m` to `m'`. */
  ghost predicate Recovery(c: Setup, m: Moment, m': Moment) {
    exists ms: seq<Moment>, es: seq<Event> ::
      IsPath(c, ms, es) && ms[0] == m && ms[|es|] == m' && forall i | 0 <= i < |es| :: RecoveryEvent(es[i])
  }

  lemma RecoverySelf(c: Setup, m: Moment)
    ensures Recovery(c, m, m)
  {
    var ms, es: seq<Event> := [m], [];
    assert IsPath(c, ms, es) && ms[0] == m && ms[|es|] == m;
  }

  lemma RecoveryOn(c: Setup, m0: Moment, m: Moment, e: Event, m': Moment)
    requires Recovery(c, m0, m) && Happens(c, e, m, m') && RecoveryEvent(e)
    ensures Recovery(c, m0, m')
  {
    hide Happens, RecoveryEvent;
    var ms: seq<Moment>, es: seq<Event> :|
      IsPath(c, ms, es) && ms[0] == m0 && ms[|es|] == m && forall i | 0 <= i < |es| :: RecoveryEvent(es[i]);
    var ms', es' := ms + [m'], es + [e];
    PathExtends(c, ms, es, e, m');
    assert ms'[0] == m0 && ms'[|es'|] == m';
  }

  lemma {:induction false} RecoversAlong(c: Setup, m0: Moment, m: Moment, run: seq<Disk>, i: nat)
    requires Recovery(c, m0, m) && m.world.lock == Maintaining(true) && m.world.site.plan.Some?
    requires IsRunBy(Recoverer, c.plan, run) && run[0] == m.disk && i < |run|
    ensures Recovery(c, m0, m.(disk := run[i]))
  {
    hide Recovery;
    if i == 0 {
      assert m.(disk := run[0]) == m;
    } else {
      RecoversAlong(c, m0, m, run, i - 1);
      assert NextBy(Recoverer, c.plan, run[i - 1], run[i - 1 + 1]);
      var s :| MayTake(Recoverer, s) && Does(c.plan, s, run[i - 1], run[i]);
      hide Does;
      RecoveryOn(c, m0, m.(disk := run[i - 1]), Maintenance(Recovers(s)), m.(disk := run[i]));
    }
  }

  lemma {:induction false} RecoveryReaches(c: Setup, ms: seq<Moment>, es: seq<Event>, i: nat)
    requires IsPath(c, ms, es) && i < |ms| && forall k | 0 <= k < |es| :: RecoveryEvent(es[k])
    ensures ReachesBy(Recoverer, c.plan, ms[0].disk, ms[i].disk) && ms[i].pre == ms[0].pre
  {
    hide ReachesBy;
    if i == 0 {
      ReachesSelf(Recoverer, c.plan, ms[0].disk);
    } else {
      RecoveryReaches(c, ms, es, i - 1);
      assert HappensAt(c, ms, es, i - 1) && RecoveryEvent(es[i - 1]);
      hide Does;
      if es[i - 1].m.Recovers? {
        ReachesStep(Recoverer, c.plan, ms[0].disk, es[i - 1].m.step, ms[i - 1].disk, ms[i].disk);
      }
    }
  }

  /** Whenever nobody holds the lock and the transaction is unfinished, a recovery process can get the
      old program back exactly if everything touched can be restored. */
  lemma RecoversIff(c: Setup, m: Moment)
    requires Safe(c, m) && m.world.lock.NoOne? && m.world.site.plan.Some?
    requires m.disk.journal.Some? && !Terminal(m.disk)
    ensures (exists m' :: Recovery(c, m, m') && IsUndone(c, m'))
            <==> Undoable(c.plan, m.disk.live, m.disk.backup, m.disk.journal.value)
  {
    RecoverableIff(c.plan, m.pre, m.disk);
    hide Undoable, Recovery, Inv;
    if Undoable(c.plan, m.disk.live, m.disk.backup, m.disk.journal.value) { RecoversAll(c, m); }
    if m' :| Recovery(c, m, m') && IsUndone(c, m') { OnlyRecoverable(c, m, m'); }
  }

  lemma OnlyRecoverable(c: Setup, m: Moment, m': Moment)
    requires Recovery(c, m, m') && In(m'.disk, RolledBack)
    ensures Recoverable(c.plan, m.disk)
  {
    hide Happens, RecoveryEvent;
    var ms: seq<Moment>, es: seq<Event> :|
      IsPath(c, ms, es) && ms[0] == m && ms[|es|] == m' && forall i | 0 <= i < |es| :: RecoveryEvent(es[i]);
    RecoveryReaches(c, ms, es, |es|);
  }

  lemma RecoversAll(c: Setup, m: Moment)
    requires Safe(c, m) && m.world.lock.NoOne? && m.world.site.plan.Some?
    requires m.disk.journal.Some? && !Terminal(m.disk)
    requires Undoable(c.plan, m.disk.live, m.disk.backup, m.disk.journal.value)
    ensures exists m' :: Recovery(c, m, m') && IsUndone(c, m')
  {
    var j := m.disk.journal.value.(state := RollingBack);
    var d1 := Save(m.disk, j);
    BeginsRollback(c, m, d1);
    SameUndoable(c.plan, m.disk.live, m.disk.backup, m.disk.journal.value, j);
    EndsRolledBack(c.plan, d1);
    hide Undoable, Inv;
    var d' :| ReachesBy(Recoverer, c.plan, d1, d') && In(d', RolledBack);
    var m1 := Moment(d1, m.world.(lock := Maintaining(true)), m.pre);
    var run :| IsRunBy(Recoverer, c.plan, run) && run[0] == d1 && run[|run| - 1] == d';
    RecoversAlong(c, m, m1, run, |run| - 1);
    hide Recovery;
    assert Does(c.plan, BeginRollback(false), m.disk, d1) && MayTake(Anyone, BeginRollback(false));
    StepKeepsInv(c.plan, m.pre, BeginRollback(false), m.disk, d1);
    ReachesKeepsInv(Recoverer, c.plan, m.pre, d1, d');
    assert IsUndone(c, m1.(disk := d')) by { UndoneByInv(c, m1.(disk := d')); }
  }

  lemma UndoneByInv(c: Setup, m: Moment)
    requires Inv(c.plan, m.pre, m.disk) && In(m.disk, RolledBack)
    ensures IsUndone(c, m)
  {
  }

  lemma SameUndoable(plan: Plan, live: Tree, backup: Tree, j: Journal, j': Journal)
    requires Undoable(plan, live, backup, j) && j' == j.(state := j'.state)
    ensures Undoable(plan, live, backup, j')
  {
    forall item | item in j'.touched ensures Restorable(live, backup, j', item) {
      assert Restorable(live, backup, j, item);
    }
  }

  lemma BeginsRollback(c: Setup, m: Moment, d1: Disk)
    requires m.world.lock.NoOne? && m.world.site.plan.Some? && m.disk.journal.Some? && !Terminal(m.disk)
    requires d1 == Save(m.disk, m.disk.journal.value.(state := RollingBack))
    ensures Recovery(c, m, Moment(d1, m.world.(lock := Maintaining(true)), m.pre))
    ensures Does(c.plan, BeginRollback(false), m.disk, d1)
  {
    assert InAny(m.disk, {Prepared, Applying, AwaitingConfirmation, RollingBack, Failed}) by {
      match m.disk.journal.value.state {
        case Prepared =>
        case Applying =>
        case AwaitingConfirmation =>
        case RollingBack =>
        case Failed =>
      }
    }
    RecoverySelf(c, m);
    hide Recovery;
    var held := m.(world := m.world.(lock := Maintaining(false)));
    RecoveryOn(c, m, m, Maintenance(TakesLock), held);
    RecoveryOn(c, m, held, Maintenance(Recovers(BeginRollback(false))),
               Moment(d1, m.world.(lock := Maintaining(true)), m.pre));
  }
}
