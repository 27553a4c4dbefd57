/** src/helper.rs, the parent's cancellation: how long it holds, how it can be lost, and what can then
    still happen. */
module Cancellations {
  import opened Outcomes
  import opened Trees
  import opened Transactions
  import opened CrashSafety
  import opened Handoffs

  /** The marker is there, `apply` has not begun, and no helper is past its last look at the marker. */
  predicate CancelHeld(m: Moment) {
    && m.world.site.cancel && !m.world.past.applied
    && !(m.world.lock.Helper? && (Working(m.world.lock.at) || m.world.lock.at.ApplyFailed?))
  }

  lemma CancelHeldStep(c: Setup, e: Event, m: Moment, m': Moment)
    requires Safe(c, m) && Happens(c, e, m, m') && CancelHeld(m) && !BeginsTransaction(e)
    requires e == Maintenance(Discards) ==> m'.world.site.cancel
    ensures CancelHeld(m')
    ensures m'.disk != m.disk ==> e.Maintenance?
  {
    hide Inv, Does;
  }

  /** Cancelling and the parent's exit are linearized: once the parent, which is necessarily still
      alive, has written the marker, `apply` does not begin, the program stays as it was, and the
      journal changes only at the hands of maintenance processes, for as long as no discard takes
      the marker away. */
  lemma {:induction false} CancelWins(c: Setup, ms: seq<Moment>, es: seq<Event>, i: nat, j: nat)
    requires IsHistory(c, ms, es) && i < j < |ms| && es[i].Parent? && es[i].p.Cancels?
    requires es[i].t == Last(ms[i].world) && !ms[i].world.past.stale
    requires forall k | i < k < j :: !BeginsTransaction(es[k])
    requires forall k | i < k < j && es[k] == Maintenance(Discards) :: ms[k + 1].world.site.cancel
    ensures CancelHeld(ms[j]) && ms[j].disk.live == ms[j].pre
    ensures ms[j].disk.journal == None || InAny(ms[j].disk, {Prepared, RollingBack, RolledBack, Failed})
    ensures forall k | i <= k < j && ms[k + 1].disk != ms[k].disk :: es[k].Maintenance?
    decreases j
  {
    hide Inv, Controls, Changes, Consistent;
    SafeAround(c, ms, es, j - 1);
    if j == i + 1 {
      CancelBegins(c, es[i], ms[i], ms[j]);
    } else {
      CancelWins(c, ms, es, i, j - 1);
      CancelHeldStep(c, es[j - 1], ms[j - 1], ms[j]);
    }
  }

  lemma CancelBegins(c: Setup, e: Event, m: Moment, m': Moment)
    requires Safe(c, m) && Happens(c, e, m, m') && e.Parent? && e.p.Cancels? && e.t == Last(m.world)
    requires !m.world.past.stale
    ensures CancelHeld(m') && m'.disk == m.disk
  {
  }

  lemma MarkerLost(c: Setup, e: Event, m: Moment, m': Moment)
    requires Safe(c, m) && Happens(c, e, m, m') && !BeginsTransaction(e) && m.world.site.cancel && !m'.world.site.cancel
    ensures e == Maintenance(Discards) && m.world.lock.Maintaining?
  {
  }

  lemma PreparedBefore(c: Setup, e: Event, m: Moment, m': Moment)
    requires Safe(c, m) && Happens(c, e, m, m') && !BeginsTransaction(e) && In(m'.disk, Prepared)
    ensures In(m.disk, Prepared)
  {
    JournalStep(c, e, m, m');
  }

  /** The last discard that took the marker. */
  lemma {:induction false} LostWhen(c: Setup, ms: seq<Moment>, es: seq<Event>, i: nat, s: nat) returns (k: nat)
    requires IsHistory(c, ms, es) && i < s < |ms| && |ms[i].world.sessions| == |ms[s].world.sessions|
    requires ms[i].world.site.cancel && !ms[s].world.site.cancel && In(ms[s].disk, Prepared)
    ensures i <= k < s && es[k] == Maintenance(Discards) && ms[k].world.site.cancel && !ms[k + 1].world.site.cancel
    ensures In(ms[k + 1].disk, Prepared) && ms[k].world.lock.Maintaining?
    decreases s
  {
    hide Safe, Happens;
    SafeAround(c, ms, es, s - 1);
    SessionStep(c, es[s - 1], ms[s - 1], ms[s]);
    SessionsGrow(c, ms, es, i, s - 1);
    if ms[s - 1].world.site.cancel {
      MarkerLost(c, es[s - 1], ms[s - 1], ms[s]);
      k := s - 1;
    } else {
      PreparedBefore(c, es[s - 1], ms[s - 1], ms[s]);
      k := LostWhen(c, ms, es, i, s - 1);
    }
  }

  lemma LockStep(c: Setup, e: Event, m: Moment, m': Moment)
    requires Happens(c, e, m, m') && m'.world.lock.Helper?
    ensures || e == Handoff(m'.world.lock.token, Locks)
            || (m.world.lock.Helper? && m.world.lock.token == m'.world.lock.token)
  {
  }

  lemma {:induction false} LockedWhen(c: Setup, ms: seq<Moment>, es: seq<Event>, k: nat, s: nat) returns (l: nat)
    requires IsHistory(c, ms, es) && k < s < |ms| && ms[s].world.lock.Helper? && !ms[k].world.lock.Helper?
    ensures k <= l < s && es[l] == Handoff(ms[s].world.lock.token, Locks)
    decreases s
  {
    assert HappensAt(c, ms, es, s - 1);
    LockStep(c, es[s - 1], ms[s - 1], ms[s]);
    if es[s - 1] == Handoff(ms[s].world.lock.token, Locks) {
      l := s - 1;
    } else {
      l := LockedWhen(c, ms, es, k, s - 1);
    }
  }

  /** `apply` can begin after a cancellation only if a discard took the marker, left the journal
      prepared, and the helper took the lock only then. */
  lemma ApplyAfterCancelNeedsDiscard(c: Setup, ms: seq<Moment>, es: seq<Event>, i: nat, s: nat) returns (k: nat, l: nat)
    requires IsHistory(c, ms, es) && i < s < |es| && es[i].Parent? && es[i].p.Cancels?
    requires es[s].Handoff? && es[s].h.StartsApply? && In(ms[s].disk, Prepared)
    requires |ms[i].world.sessions| == |ms[s].world.sessions|
    ensures i < k < l < s && es[k] == Maintenance(Discards) && es[l] == Handoff(es[s].t, Locks)
    ensures ms[k].world.site.cancel && !ms[k + 1].world.site.cancel && In(ms[k + 1].disk, Prepared)
  {
    assert HappensAt(c, ms, es, i) && HappensAt(c, ms, es, s);
    SessionStep(c, es[i], ms[i], ms[i + 1]);
    k := LostWhen(c, ms, es, i + 1, s);
    l := LockedWhen(c, ms, es, k, s);
  }

  // ---------------------------------------------------------------------------
  // What can still happen within the present transaction

  predicate WithinTransaction(e: Event) { !BeginsTransaction(e) && e != Maintenance(Discards) }

  /** Some continuation without another discard or arming goes from `m` to `m'`. */
  ghost predicate Leads(c: Setup, m: Moment, m': Moment) {
    exists ms: seq<Moment>, es: seq<Event> ::
      IsPath(c, ms, es) && ms[0] == m && ms[|es|] == m' && forall i | 0 <= i < |es| :: WithinTransaction(es[i])
  }

  lemma LeadsSelf(c: Setup, m: Moment)
    ensures Leads(c, m, m)
  {
    var ms, es: seq<Event> := [m], [];
    assert IsPath(c, ms, es) && ms[0] == m && ms[|es|] == m;
  }

  lemma LeadsOn(c: Setup, m0: Moment, m: Moment, e: Event, m': Moment)
    requires Leads(c, m0, m) && Happens(c, e, m, m') && WithinTransaction(e)
    ensures Leads(c, m0, m')
  {
    hide Happens;
    var ms: seq<Moment>, es: seq<Event> :|
      IsPath(c, ms, es) && ms[0] == m0 && ms[|es|] == m && forall i | 0 <= i < |es| :: WithinTransaction(es[i]);
    var ms', es' := ms + [m'], es + [e];
    PathExtends(c, ms, es, e, m');
    assert ms'[0] == m0 && ms'[|es'|] == m';
  }

  lemma PathExtends(c: Setup, ms: seq<Moment>, es: seq<Event>, e: Event, m': Moment)
    requires IsPath(c, ms, es) && Happens(c, e, ms[|es|], m')
    ensures IsPath(c, ms + [m'], es + [e])
  {
    hide Happens;
    var ms', es' := ms + [m'], es + [e];
    forall i: nat | i < |es'| ensures HappensAt(c, ms', es', i) {
      if i < |es| { assert HappensAt(c, ms, es, i); } else { assert ms'[i] == ms[|es|] && ms'[i + 1] == m'; }
    }
  }

  /** A helper is about to call `apply` and will find the journal prepared. */
  predicate AboutToApply(m: Moment) {
    m.world.lock.Helper? && m.world.lock.at.Recheck? && !m.world.site.cancel && In(m.disk, Prepared)
  }

  /** A helper that can still come to hold the lock: it has read its plan, or can still read it, or
      can still be started. */
  predicate MayCome(w: World, t: nat) {
    && t < |w.sessions|
    && match w.sessions[t].helper
       case NotSpawned => w.site.plan == Some(t) && w.sessions[t].parentAlive
       case Started => w.site.plan == Some(t)
       case Loaded => true
       case _ => false
  }

  /** Nothing stands in the way of a helper but the order of events. */
  ghost predicate Open(c: Setup, m: Moment) {
    && m.world.site.present && !m.world.site.cancel && In(m.disk, Prepared) && VerifiedStage(c.plan, m.disk.stage)
    && exists t: nat :: MayCome(m.world, t)
  }

  /** `apply` cannot begin any more in this transaction. */
  ghost predicate Closed(c: Setup, m: Moment) {
    || m.world.site.cancel || !In(m.disk, Prepared)
    || (!VerifiedStage(c.plan, m.disk.stage) && (m.world.lock.Helper? ==> m.world.lock.at.Verifying?))
    || (!m.world.lock.Helper? && forall t: nat :: !MayCome(m.world, t))
  }

  /** Within a transaction the stage and the journal of a prepared disk do not change, as long as it
      stays prepared and `apply` does not run. */
  lemma PreparedIsStable(c: Setup, e: Event, m: Moment, m': Moment)
    requires Safe(c, m) && Happens(c, e, m, m') && WithinTransaction(e) && In(m'.disk, Prepared)
    requires m.world.lock.Helper? ==> !Working(m.world.lock.at)
    ensures In(m.disk, Prepared) && m'.disk.stage == m.disk.stage
  {
    hide Inv;
    PreparedBefore(c, e, m, m');
    ChangesFollowProtocol(c, e, m.disk, m.world, m'.disk, m'.world);
  }

  lemma ClosedStep(c: Setup, e: Event, m: Moment, m': Moment)
    requires Safe(c, m) && Happens(c, e, m, m') && WithinTransaction(e) && Closed(c, m) && !AboutToApply(m)
    requires m.world.lock.Helper? ==> !Working(m.world.lock.at)
    ensures Closed(c, m')
  {
    hide Inv, VerifiedStage, Does, Changes, Consistent, Quiet;
    if In(m'.disk, Prepared) {
      PreparedIsStable(c, e, m, m');
      if !m.world.lock.Helper? && forall t: nat :: !MayCome(m.world, t) {
        NobodyComes(c, e, m, m');
      }
    }
  }

  lemma NobodyComes(c: Setup, e: Event, m: Moment, m': Moment)
    requires Happens(c, e, m, m') && WithinTransaction(e) && !m.world.lock.Helper?
    requires forall t: nat :: !MayCome(m.world, t)
    ensures !m'.world.lock.Helper? && forall t: nat :: !MayCome(m'.world, t)
  {
    hide Changes, VerifiedStage;
    if e.Handoff? || e.Parent? { assert !MayCome(m.world, e.t); }
    forall t: nat ensures !MayCome(m'.world, t) { assert !MayCome(m.world, t); }
  }

  predicate NotWorking(w: World) { w.lock.Helper? ==> !Working(w.lock.at) }

  lemma StaysIdle(c: Setup, e: Event, m: Moment, m': Moment)
    requires Safe(c, m) && Happens(c, e, m, m') && NotWorking(m.world) && !AboutToApply(m)
    ensures NotWorking(m'.world)
  {
    hide Inv, Changes, VerifiedStage;
  }

  lemma ClosedIsNotAbout(c: Setup, m: Moment)
    requires Safe(c, m) && Closed(c, m)
    ensures !AboutToApply(m)
  {
    hide Inv, VerifiedStage;
  }

  lemma {:induction false} ClosedStays(c: Setup, ms: seq<Moment>, es: seq<Event>, i: nat)
    requires IsPath(c, ms, es) && i < |ms| && Safe(c, ms[0]) && Closed(c, ms[0]) && NotWorking(ms[0].world)
    requires forall k | 0 <= k < |es| :: WithinTransaction(es[k])
    ensures Safe(c, ms[i]) && Closed(c, ms[i]) && NotWorking(ms[i].world)
  {
    hide Safe, Happens, Closed, AboutToApply;
    if i == 0 {
    } else {
      ClosedStays(c, ms, es, i - 1);
      assert HappensAt(c, ms, es, i - 1) && WithinTransaction(es[i - 1]);
      ClosedIsNotAbout(c, ms[i - 1]);
      EventKeepsSafe(c, es[i - 1], ms[i - 1], ms[i]);
      ClosedStep(c, es[i - 1], ms[i - 1], ms[i]);
      StaysIdle(c, es[i - 1], ms[i - 1], ms[i]);
    }
  }

  /** Whoever holds the lock and is not a helper lets it go. */
  lemma LockIsFreed(c: Setup, m: Moment) returns (m': Moment)
    requires !m.world.lock.Helper?
    ensures Leads(c, m, m') && m' == m.(world := m.world.(lock := NoOne))
  {
    LeadsSelf(c, m);
    m' := m.(world := m.world.(lock := NoOne));
    if m.world.lock.Arming? { LeadsOn(c, m, m, Arm(ArmReleases), m'); }
    if m.world.lock.Maintaining? { LeadsOn(c, m, m, Maintenance(Releases), m'); }
  }

  /** A helper that may come gets started and reads its plan, and its parent exits. */
  lemma HelperComes(c: Setup, m0: Moment, m: Moment, t: nat) returns (m': Moment)
    requires Leads(c, m0, m) && m.world.lock.NoOne? && m.world.site.present && MayCome(m.world, t)
    ensures Leads(c, m0, m') && m' == m.(world := Resessioned(m.world, t, Session(false, Loaded)))
  {
    hide Leads;
    m' := m;
    if m.world.sessions[t].helper.NotSpawned? {
      m' := m.(world := Resessioned(m.world, t, Session(true, Started)));
      LeadsOn(c, m0, m, Parent(t, Spawns), m');
    }
    if m'.world.sessions[t].helper.Started? {
      var read := m'.(world := Resessioned(m'.world, t, m'.world.sessions[t].(helper := Loaded)));
      LeadsOn(c, m0, m', Handoff(t, Loads), read);
      m' := read;
    }
    if m'.world.sessions[t].parentAlive {
      var gone := m'.(world := Resessioned(m'.world, t, m'.world.sessions[t].(parentAlive := false)));
      LeadsOn(c, m0, m', Parent(t, Exits), gone);
      m' := gone;
    }
    assert m'.world.sessions == m.world.sessions[t := Session(false, Loaded)];
  }

  /** A loaded helper whose parent is gone gets as far as calling `apply`. */
  lemma HelperGetsThere(c: Setup, m0: Moment, m: Moment, t: nat) returns (m': Moment)
    requires Leads(c, m0, m) && m.world.lock.NoOne? && t < |m.world.sessions|
    requires m.world.sessions[t] == Session(false, Loaded)
    requires m.world.site.present && !m.world.site.cancel && In(m.disk, Prepared) && VerifiedStage(c.plan, m.disk.stage)
    ensures Leads(c, m0, m') && AboutToApply(m') && m'.disk == m.disk && m'.world.lock.token == t
    ensures m'.world.sessions == m.world.sessions[t := Session(false, Running)] && m'.pre == m.pre
    ensures m'.world.site == m.world.site.(ready := Some(t)) && m'.world.confirmers == m.world.confirmers
    ensures m'.world.past == m.world.past.(stale := m.world.past.stale || t != Last(m.world))
  {
    hide Leads, VerifiedStage;
    var w := m.world;
    var w1 := Resessioned(w, t, Session(false, Running)).(lock := Helper(t, Verifying),
                                                          past := w.past.(stale := w.past.stale || t != Last(w)));
    LeadsOn(c, m0, m, Handoff(t, Locks), m.(world := w1));
    var w2 := Moved(w1, t, PollCancel).(site := w1.site.(ready := Some(t)));
    LeadsOn(c, m0, m.(world := w1), Handoff(t, SaysReady), m.(world := w2));
    var w3 := Moved(w2, t, PollExit);
    LeadsOn(c, m0, m.(world := w2), Handoff(t, SeesNoCancel), m.(world := w3));
    var w4 := Moved(w3, t, Recheck);
    LeadsOn(c, m0, m.(world := w3), Handoff(t, SeesParentGone), m.(world := w4));
    m' := m.(world := w4);
  }

  /** After a discard, or at any moment at which no helper holds the lock, `apply` can still begin in
      this transaction if and only if the marker is gone, the journal still prepared, the stage
      still complete, and there is a helper to come. */
  lemma DiscardReopensIff(c: Setup, m: Moment)
    requires Safe(c, m) && !m.world.lock.Helper?
    ensures (exists m' :: Leads(c, m, m') && AboutToApply(m')) <==> Open(c, m)
  {
    if Open(c, m) {
      var t: nat :| MayCome(m.world, t);
      var m1 := LockIsFreed(c, m);
      assert MayCome(m1.world, t);
      var m2 := HelperComes(c, m, m1, t);
      var m3 := HelperGetsThere(c, m, m2, t);
    } else if m' :| Leads(c, m, m') && AboutToApply(m') {
      var ms: seq<Moment>, es: seq<Event> :|
        IsPath(c, ms, es) && ms[0] == m && ms[|es|] == m' && forall i | 0 <= i < |es| :: WithinTransaction(es[i]);
      SiteOf(StateOf(m.disk), m.world);
      ClosedStays(c, ms, es, |es|);
      ClosedIsNotAbout(c, m');
    }
  }
}
