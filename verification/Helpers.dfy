/** `execute` of src/helper.rs: what the helper does once it holds the lock, from the verification of
    the stage to the end of the update. The observations of the two waiting loops and whether the
    new program can be started are given. */
module Helpers {
  import opened Outcomes
  import opened Trees
  import opened FileStores
  import opened Manifests
  import opened Transactions
  import opened CrashSafety
  import opened Installations
  import opened Waiting
  import opened BundleRecovery
  import Handoffs

  /** What the helper observes, poll by poll. */
  datatype Observed = Observed(
    exitTimeoutSecs: nat, cancel: nat -> bool, gone: nat -> bool, cancelAfterExit: bool, exitLate: nat -> nat,
    starts: bool,
    confirmTimeoutSecs: nat, confirmed: nat -> bool, childGone: nat -> bool, confirmLate: nat -> nat)

  /** Undoing an installed update can be completed. */
  predicate CanBeUndone(plan: Plan, pre: Tree) {
    plan.bundle ==> forall item | item in plan.items :: !IsFile(At(pre, item))
  }

  /** An installed bundle is a directory. */
  lemma InstalledBundle(plan: Plan, live: Tree)
    requires WellFormed(plan) && plan.bundle && AllNew(plan, live)
    ensures forall item | item in plan.items :: IsDir(At(live, item))
  {
    assert plan.items[0] in plan.items;
    AllNewMatches(plan, live, 0);
    if !IsDir(At(live, plan.items[0])) { AtBeneath(live, plan.items[0], FilePath(plan.files[0])); }
  }

  lemma InstalledIsUndoable(plan: Plan, pre: Tree, d: Disk)
    requires Inv(plan, pre, d) && In(d, AwaitingConfirmation)
    ensures Undoable(plan, d.live, d.backup, d.journal.value) <==> CanBeUndone(plan, pre)
  {
    RecoveryCompletes(plan, pre, d);
    if plan.bundle { InstalledBundle(plan, d.live); }
  }

  /** The rollback after the new program could not be started or has gone without confirming. */
  method UndoUpdate(i: Installation, ghost pre: Tree) returns (o: Outcome)
    requires i.Valid() && Inv(i.plan, pre, i.Now()) && In(i.Now(), AwaitingConfirmation)
    modifies i`journal, i.live
    ensures Inv(i.plan, pre, i.Now()) && ReachesBy(Recoverer, i.plan, old(i.Now()), i.Now())
    ensures InAny(i.Now(), {AwaitingConfirmation, RollingBack, RolledBack})
    ensures o.Ok? ==> In(i.Now(), RolledBack) && AllOld(i.plan, pre, i.live.tree)
    ensures i.reliable ==> !o.Crashed? && (o.Ok? <==> CanBeUndone(i.plan, pre))
    ensures In(i.Now(), RolledBack) ==> CanBeUndone(i.plan, pre)
  {
    hide Inv, ReachesBy, Undoable, CanBeUndone, Restorable;
    ghost var d := i.Now();
    InstalledIsUndoable(i.plan, pre, d);
    o := i.Rollback();
    OnlyIfUndoable(i.plan, pre, d, i.Now());
    ReachesKeepsInv(Recoverer, i.plan, pre, d, i.Now());
    StaysUnfinished(i.plan, d, i.Now());
  }

  lemma OnlyIfUndoable(plan: Plan, pre: Tree, d: Disk, d': Disk)
    requires Inv(plan, pre, d) && In(d, AwaitingConfirmation) && ReachesBy(Recoverer, plan, d, d')
    ensures In(d', RolledBack) ==> Undoable(plan, d.live, d.backup, d.journal.value)
    ensures In(d', RolledBack) ==> AllOld(plan, pre, d'.live)
  {
    if In(d', RolledBack) {
      assert Recoverable(plan, d);
      RecoverableIff(plan, pre, d);
      ReachesKeepsInv(Recoverer, plan, pre, d, d');
    }
  }

  lemma StaysUnfinished(plan: Plan, d: Disk, d': Disk)
    requires ReachesBy(Recoverer, plan, d, d') && In(d, AwaitingConfirmation)
    ensures InAny(d', {AwaitingConfirmation, RollingBack, RolledBack})
  {
    var run :| IsRunBy(Recoverer, plan, run) && run[0] == d && run[|run| - 1] == d';
    ActsWithin(Recoverer, plan, run, |run| - 1);
  }

  lemma MarksReaches(plan: Plan, pre: Tree, s: Step, state: InstallState, d: Disk, d': Disk)
    requires Inv(plan, pre, d) && Handoffs.Finishes(d, state, d')
    requires (s == Fail && state == Failed && InAny(d, {AwaitingConfirmation, RollingBack}))
          || (s == Commit && state == Committed && In(d, AwaitingConfirmation))
    ensures Reaches(plan, d, d') && Inv(plan, pre, d')
  {
    ReachesSelf(Anyone, plan, d);
    Handoffs.FinishIsStep(plan, s, state, d, d');
    if d' != d { ReachesStep(Anyone, plan, d, s, d, d'); }
    ReachesKeepsInv(Anyone, plan, pre, d, d');
  }

  /** From the moment the new program is installed: start it, wait for it, and commit, undo or give up. */
  method Relaunch(i: Installation, ghost pre: Tree, seen: Observed)
    returns (o: Outcome, verdict: Option<ConfirmVerdict>, polls: nat)
    requires i.Valid() && Inv(i.plan, pre, i.Now()) && In(i.Now(), AwaitingConfirmation)
    modifies i`journal, i.live
    ensures Inv(i.plan, pre, i.Now()) && Reaches(i.plan, old(i.Now()), i.Now())
    ensures verdict.Some? <==> seen.starts
    ensures verdict.Some? ==>
              && 1 <= polls && NothingSeen(seen.confirmed, seen.childGone, polls - 1)
              && (verdict == Some(Confirmed) <==> seen.confirmed(polls - 1))
              && (verdict == Some(ChildGone) <==> !seen.confirmed(polls - 1) && seen.childGone(polls - 1))
              && (verdict == Some(ConfirmTimedOut) ==>
                    Slept(100, seen.confirmLate, polls - 1) >= 1000 * seen.confirmTimeoutSecs)
    ensures o.Ok? ==> verdict == Some(Confirmed) && In(i.Now(), Committed)
    ensures In(i.Now(), Committed) ==> verdict == Some(Confirmed)
    ensures verdict == None || verdict == Some(ChildGone) ==>
              InAny(i.Now(), {AwaitingConfirmation, RollingBack, RolledBack})
    ensures i.reliable ==>
              match verdict
              case Some(Confirmed) => o.Ok? && In(i.Now(), Committed) && i.live.tree == old(i.live.tree)
              case Some(ConfirmTimedOut) => o.Err? && In(i.Now(), Failed) && i.live.tree == old(i.live.tree)
              case _ => o.Err? && (In(i.Now(), RolledBack) <==> CanBeUndone(i.plan, pre))
  {
    hide Inv, ReachesBy, Undoable, CanBeUndone, NothingSeen, Slept;
    ghost var d := i.Now();
    polls, verdict := 0, None;
    if !seen.starts {
      o := UndoUpdate(i, pre);
      ReachesWeaker(Recoverer, Anyone, i.plan, d, i.Now());
      o := if o.Ok? then Err(Io) else o;
      return;
    }
    var v;
    v, polls := WaitForConfirmation(seen.confirmTimeoutSecs, seen.confirmed, seen.childGone, seen.confirmLate);
    verdict := Some(v);
    match v
    case Confirmed =>
      o := i.Finish(Committed);
      MarksReaches(i.plan, pre, Commit, Committed, d, i.Now());
    case ChildGone =>
      o := UndoUpdate(i, pre);
      ReachesWeaker(Recoverer, Anyone, i.plan, d, i.Now());
      o := if o.Ok? then Err(HelperFailed) else o;
    case ConfirmTimedOut =>
      o := i.Finish(Failed);
      MarksReaches(i.plan, pre, Fail, Failed, d, i.Now());
      o := if o.Ok? then Err(Recovery) else o;
  }

  /** `apply`, and the mark it gets if it failed and could not be undone either. */
  method ApplyOrMark(i: Installation, ghost pre: Tree) returns (o: Outcome)
    requires i.Valid() && Inv(i.plan, pre, i.Now())
    modifies i`journal, i.live, i.stage, i.backup
    ensures Inv(i.plan, pre, i.Now()) && Reaches(i.plan, old(i.Now()), i.Now())
    ensures o.Ok? ==> In(i.Now(), AwaitingConfirmation)
    ensures old(!In(i.Now(), Committed)) ==> !In(i.Now(), Committed)
    ensures old(!In(i.Now(), Prepared)) ==> !o.Ok? && i.live.tree == old(i.live.tree)
    ensures i.reliable ==> !o.Crashed? && (o.Ok? <==> old(Applicable(i.plan, i.Now())))
    ensures i.reliable && !o.Ok? && old(In(i.Now(), Prepared)) ==>
              AllOld(i.plan, pre, i.live.tree) && InAny(i.Now(), {Prepared, RolledBack})
    ensures i.reliable && old(In(i.Now(), RollingBack)) ==> In(i.Now(), Failed)
    ensures i.reliable && old(!InAny(i.Now(), {Prepared, RollingBack})) ==> i.Now() == old(i.Now())
  {
    hide Inv, ReachesBy, Applicable, AllOld;
    ghost var d0 := i.Now();
    o := i.Apply(pre);
    ghost var d := i.Now();
    ReachesWeaker(Applier, Anyone, i.plan, d0, d);
    if o.Err? && i.journal.Some? && i.journal.value.state == RollingBack {
      var marked := i.Finish(Failed);
      MarksReaches(i.plan, pre, Fail, Failed, d, i.Now());
      ReachesTrans(Anyone, i.plan, d0, d, i.Now());
      if marked.Crashed? { o := Crashed; }
    }
  }

  /** `execute`. Without faults: nothing happens unless the stage is verified and the parent is seen
      to be gone and has not cancelled; then the update is applied exactly if that is possible, and
      is committed, undone or left for recovery according to what becomes of the new program. */
  method Execute(i: Installation, ghost pre: Tree, seen: Observed)
    returns (o: Outcome, exit: Option<ExitVerdict>, confirm: Option<ConfirmVerdict>, polls: nat, confirmPolls: nat)
    requires i.Valid() && Inv(i.plan, pre, i.Now())
    modifies i`journal, i.live, i.stage, i.backup
    ensures Inv(i.plan, pre, i.Now()) && Reaches(i.plan, old(i.Now()), i.Now())
    ensures exit.Some? ==>
              && old(VerifiedStage(i.plan, i.stage.tree))
              && 1 <= polls && NothingSeen(seen.cancel, seen.gone, polls - 1)
              && (exit == Some(ParentGone) <==>
                    !seen.cancel(polls - 1) && seen.gone(polls - 1) && !seen.cancelAfterExit)
              && (exit == Some(ExitTimedOut) ==> Slept(100, seen.exitLate, polls - 1) >= 1000 * seen.exitTimeoutSecs)
    ensures exit != Some(ParentGone) ==> i.Now() == old(i.Now()) && (o.Ok? ==> exit == Some(ExitVerdict.Cancelled))
    ensures confirm.Some? ==>
              && exit == Some(ParentGone) && seen.starts
              && 1 <= confirmPolls && NothingSeen(seen.confirmed, seen.childGone, confirmPolls - 1)
              && (confirm == Some(Confirmed) <==> seen.confirmed(confirmPolls - 1))
              && (confirm == Some(ChildGone) <==>
                    !seen.confirmed(confirmPolls - 1) && seen.childGone(confirmPolls - 1))
              && (confirm == Some(ConfirmTimedOut) ==>
                    Slept(100, seen.confirmLate, confirmPolls - 1) >= 1000 * seen.confirmTimeoutSecs)
    ensures o.Ok? ==> exit == Some(ExitVerdict.Cancelled) || (confirm == Some(Confirmed) && In(i.Now(), Committed))
    ensures In(i.Now(), Committed) ==> old(In(i.Now(), Committed)) || confirm == Some(Confirmed)
    ensures i.reliable ==>
              && !o.Crashed? && (exit.Some? <==> old(VerifiedStage(i.plan, i.stage.tree)))
              && (exit == Some(ExitVerdict.Cancelled) ==> o.Ok?)
    ensures i.reliable && exit == Some(ParentGone) && old(!Applicable(i.plan, i.Now())) ==>
              && o.Err? && (old(In(i.Now(), Prepared)) ==> AllOld(i.plan, pre, i.live.tree))
              && (old(!In(i.Now(), Prepared)) ==> i.live.tree == old(i.live.tree))
    ensures i.reliable && exit == Some(ParentGone) && old(Applicable(i.plan, i.Now())) ==>
              && (confirm.Some? <==> seen.starts)
              && match confirm
                 case Some(Confirmed) => o.Ok? && In(i.Now(), Committed) && AllNew(i.plan, i.live.tree)
                 case Some(ConfirmTimedOut) => o.Err? && In(i.Now(), Failed) && AllNew(i.plan, i.live.tree)
                 case _ =>
                   && o.Err? && (In(i.Now(), RolledBack) <==> CanBeUndone(i.plan, pre))
                   && (In(i.Now(), RolledBack) ==> AllOld(i.plan, pre, i.live.tree))
  {
    hide Inv, ReachesBy, Applicable, CanBeUndone, NothingSeen, Slept, VerifiedStage, AllOld, AllNew;
    ghost var d0 := i.Now();
    ReachesSelf(Anyone, i.plan, d0);
    exit, confirm, polls, confirmPolls := None, None, 0, 0;
    o := i.VerifyStage();
    if !o.Ok? { return; }
    o := Fault(i.reliable);
    if !o.Ok? { return; }
    var verdict;
    verdict, polls := WaitForExit(seen.exitTimeoutSecs, seen.cancel, seen.gone, seen.cancelAfterExit, seen.exitLate);
    exit := Some(verdict);
    if verdict == ExitVerdict.Cancelled { return; }
    if verdict == ExitTimedOut {
      o := Err(HelperFailed);
      return;
    }
    o := ApplyOrMark(i, pre);
    if !o.Ok? { return; }
    ghost var d := i.Now();
    AwaitingIsNew(i.plan, pre, d);
    o, confirm, confirmPolls := Relaunch(i, pre, seen);
    ReachesTrans(Anyone, i.plan, d0, d, i.Now());
    if In(i.Now(), RolledBack) { RolledBackIsOld(i.plan, pre, i.Now()); }
  }

  lemma AwaitingIsNew(plan: Plan, pre: Tree, d: Disk)
    requires Inv(plan, pre, d) && In(d, AwaitingConfirmation)
    ensures AllNew(plan, d.live)
  {
  }

  lemma RolledBackIsOld(plan: Plan, pre: Tree, d: Disk)
    requires Inv(plan, pre, d) && In(d, RolledBack)
    ensures AllOld(plan, pre, d.live)
  {
  }
}
