/** src/helper.rs, `run_helper`: what a helper of an earlier transaction can do. */
module StaleHelpers {
  import opened Outcomes
  import Paths
  import opened Trees
  import opened Manifests
  import opened Transactions
  import opened CrashSafety
  import opened Handoffs
  import opened Cancellations

  /** A helper of an earlier transaction has read its plan and not yet taken the lock. */
  predicate StaleLoaded(w: World, t: nat) { t < Last(w) && w.sessions[t].helper.Loaded? }

  ghost predicate NoStale(w: World) {
    && (forall t: nat :: !StaleLoaded(w, t))
    && (w.lock.Helper? ==> w.lock.token == Last(w))
  }

  lemma NoStaleStep(c: Setup, e: Event, m: Moment, m': Moment)
    requires Safe(c, m) && Happens(c, e, m, m') && WithinTransaction(e) && NoStale(m.world)
    ensures NoStale(m'.world)
  {
    hide Inv, Changes, VerifiedStage;
    if e.Handoff? || e.Parent? { assert !StaleLoaded(m.world, e.t); }
    forall t: nat ensures !StaleLoaded(m'.world, t) { assert !StaleLoaded(m.world, t); }
  }

  lemma {:induction false} NoStaleStays(c: Setup, ms: seq<Moment>, es: seq<Event>, i: nat)
    requires IsPath(c, ms, es) && i < |ms| && Safe(c, ms[0]) && NoStale(ms[0].world)
    requires forall k | 0 <= k < |es| :: WithinTransaction(es[k])
    ensures Safe(c, ms[i]) && NoStale(ms[i].world)
  {
    hide Safe, Happens, NoStale;
    if i == 0 {
    } else {
      NoStaleStays(c, ms, es, i - 1);
      assert HappensAt(c, ms, es, i - 1) && WithinTransaction(es[i - 1]);
      EventKeepsSafe(c, es[i - 1], ms[i - 1], ms[i]);
      NoStaleStep(c, es[i - 1], ms[i - 1], ms[i]);
    }
  }

  predicate ParentLives(w: World) { w.sessions != [] && w.sessions[Last(w)].parentAlive }

  /** `run_helper` reads the plan before it takes the lock and does not look at it again. Hence, in a
      transaction just armed, `apply` can begin while the parent is still alive, if and only if a
      helper of an earlier transaction has read its plan and not yet taken the lock. */
  lemma AppliesUnderParentIff(c: Setup, m: Moment)
    requires Safe(c, m) && !m.world.lock.Helper? && ParentLives(m.world)
    requires m.world.site.present && !m.world.site.cancel && In(m.disk, Prepared) && VerifiedStage(c.plan, m.disk.stage)
    ensures (exists m' :: Leads(c, m, m') && AboutToApply(m') && ParentLives(m'.world))
            <==> exists t: nat :: StaleLoaded(m.world, t)
  {
    if exists t: nat :: StaleLoaded(m.world, t) {
      var t: nat :| StaleLoaded(m.world, t);
      var m1 := LockIsFreed(c, m);
      assert MayCome(m1.world, t);
      var m2 := HelperComes(c, m, m1, t);
      var m3 := HelperGetsThere(c, m, m2, t);
      assert ParentLives(m3.world);
    } else if m' :| Leads(c, m, m') && AboutToApply(m') && ParentLives(m'.world) {
      var ms: seq<Moment>, es: seq<Event> :|
        IsPath(c, ms, es) && ms[0] == m && ms[|es|] == m' && forall i | 0 <= i < |es| :: WithinTransaction(es[i]);
      NoStaleStays(c, ms, es, |es|);
      AboutMeansGone(c, m');
    }
  }

  lemma AboutMeansGone(c: Setup, m: Moment)
    requires Safe(c, m) && AboutToApply(m)
    ensures !m.world.sessions[m.world.lock.token].parentAlive
  {
  }

  /** That all transactions share one artifact is the case that matters: a helper verifies the stage
      against its own plan, and passes only if its inventory is that of the stage. */
  lemma StaleNeedsSameInventory(mine: Plan, stage: Tree, current: Plan, i: nat) returns (j: nat)
    requires VerifiedStage(mine, stage) && VerifiedStage(current, stage) && mine.digest == current.digest
    requires i < |mine.files|
    ensures j < |current.files| && FilePath(current.files[j]) == FilePath(mine.files[i])
    ensures current.files[j].path == mine.files[i].path && current.files[j].size == mine.files[i].size
    ensures Paths.Fold(current.files[j].sha256) == Paths.Fold(mine.files[i].sha256)
  {
    var q := FilePath(mine.files[i]);
    assert Matches(mine, mine.files[i], At(stage, q));
    assert Declared(current, q);
    j :| 0 <= j < |current.files| && FilePath(current.files[j]) == q;
    assert Matches(current, current.files[j], At(stage, q));
    Paths.SplitInjective(current.files[j].path, mine.files[i].path);
  }
}
