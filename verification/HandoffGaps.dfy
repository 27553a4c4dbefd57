/** Concrete histories of the handoff: some in which something one might expect does not hold, and one
    in which all goes well. */
module HandoffGaps {
  import opened Outcomes
  import Paths
  import opened Trees
  import opened FileStores
  import opened Manifests
  import opened Transactions
  import opened CrashSafety
  import opened Frames
  import opened Handoffs
  import opened Cancellations
  import opened StaleHelpers

  datatype Story = Story(ms: seq<Moment>, es: seq<Event>)

  ghost predicate Told(c: Setup, s: Story) { IsHistory(c, s.ms, s.es) }

  function End(s: Story): Moment
    requires |s.ms| == |s.es| + 1
  {
    s.ms[|s.es|]
  }

  predicate Continues(s: Story, s': Story) { s.ms <= s'.ms && s.es <= s'.es }

  lemma Then(c: Setup, s: Story, e: Event, m': Moment) returns (s': Story)
    requires Told(c, s) && Happens(c, e, End(s), m')
    ensures Told(c, s') && s' == Story(s.ms + [m'], s.es + [e]) && End(s') == m' && Continues(s, s')
  {
    s' := Story(s.ms + [m'], s.es + [e]);
    PathExtends(c, s.ms, s.es, e, m');
  }

  /** Some continuation within the transaction is told as well. */
  lemma {:induction false} ThenOn(c: Setup, s: Story, m': Moment) returns (s': Story)
    requires Told(c, s) && Leads(c, End(s), m')
    ensures Told(c, s') && End(s') == m' && Continues(s, s')
  {
    var ms: seq<Moment>, es: seq<Event> :|
      IsPath(c, ms, es) && ms[0] == End(s) && ms[|es|] == m' && forall i | 0 <= i < |es| :: WithinTransaction(es[i]);
    s' := Story(s.ms + ms[1..], s.es + es);
    forall i: nat | i < |s'.es| ensures HappensAt(c, s'.ms, s'.es, i) {
      if i < |s.es| { assert HappensAt(c, s.ms, s.es, i); } else { assert HappensAt(c, ms, es, i - |s.es|); }
    }
  }

  /** A program of one file that is not installed yet, and the disk with its first update prepared. */
  lemma Scene() returns (c: Setup, live: Tree, d: Disk)
    ensures WellFormed(c.plan) && !c.plan.bundle && c.plan.items == [["app"]] && FilePath(c.executable) == ["app"]
    ensures c.executable == c.plan.files[0] && live == Dir(map[])
    ensures Start(c.plan, live, d) && d.stage == Dir(map["app" := File([], true)])
  {
    var plan, stage := OneFilePlan();
    assert plan.items[0] == FilePath(plan.files[0]);
    c := Setup(plan, plan.files[0]);
    live := Dir(map[]);
    d := Disk(live, stage, Dir(map[]), Some(Journal(Prepared, [], {})));
  }

  const NOWHERE: Site := Site(false, None, None, false, None)

  function SiteOfToken(t: nat): Site { Site(true, Some(t), None, false, None) }

  /** One transaction, prepared; nobody holds the lock. */
  function OnePrepared(d: Disk, s: Session, cancel: bool): Moment {
    Moment(d, World(NoOne, [s], SiteOfToken(0).(cancel := cancel), [], Past(false, false)), d.live)
  }

  /** Armed, and the helper has been started. */
  lemma Launched(c: Setup, live: Tree, d: Disk) returns (s: Story)
    requires c.executable in c.plan.files && Start(c.plan, live, d)
    ensures Told(c, s) && End(s) == OnePrepared(d, Session(true, Started), false) && s.ms[0].disk.live == live
  {
    hide VerifiedStage;
    var w0 := World(NoOne, [], NOWHERE, [], Past(false, false));
    var m0 := Moment(Disk(live, d.stage, d.backup, None), w0, live);
    s := Story([m0], []);
    var w1 := World(Arming, [Session(true, NotSpawned)], SiteOfToken(0), [], Past(false, false));
    s := Then(c, s, Arm(Arms), Moment(d, w1, live));
    var w2 := w1.(lock := NoOne);
    s := Then(c, s, Arm(ArmReleases), Moment(d, w2, live));
    var w3 := w2.(sessions := [Session(true, Started)]);
    assert w3 == Resessioned(w2, 0, Session(true, Started));
    s := Then(c, s, Parent(0, Spawns), Moment(d, w3, live));
  }

  /** The helper reads its plan, whether its parent lives or not. */
  lemma ReadsPlan(c: Setup, s: Story, d: Disk, alive: bool) returns (s': Story)
    requires Told(c, s) && End(s) == OnePrepared(d, Session(alive, Started), false)
    ensures Told(c, s') && Continues(s, s') && End(s') == OnePrepared(d, Session(alive, Loaded), false)
    ensures s'.es == s.es + [Handoff(0, Loads)]
  {
    hide VerifiedStage, Does, Start;
    var m := OnePrepared(d, Session(alive, Loaded), false);
    assert m.world.sessions == End(s).world.sessions[0 := Session(alive, Loaded)];
    s' := Then(c, s, Handoff(0, Loads), m);
  }

  /** Armed, and the helper has read its plan. */
  lemma Spawned(c: Setup, live: Tree, d: Disk) returns (s: Story)
    requires c.executable in c.plan.files && Start(c.plan, live, d)
    ensures Told(c, s)
    ensures End(s) == Moment(d, World(NoOne, [Session(true, Loaded)], SiteOfToken(0), [], Past(false, false)), live)
  {
    s := Launched(c, live, d);
    s := ReadsPlan(c, s, d, true);
  }

  lemma NothingDiscarded(c: Setup, live: Tree, d: Disk, d': Disk)
    requires Start(c.plan, live, d) && (d' == d || d' == Disk(live, Dir(map[]), Dir(map[]), None))
    ensures Does(c.plan, Discard, d, d')
  {
    PartWhole(d.stage);
    forall item | item in c.plan.items ensures At(d.backup, item) == None {}
  }

  /** The parent cancels and is gone; then a discard takes the marker and nothing else. */
  lemma CancelledInVain(c: Setup, s: Story, d: Disk, helper: HelperState) returns (s': Story)
    requires Told(c, s) && End(s) == OnePrepared(d, Session(true, helper), false) && Start(c.plan, d.live, d)
    ensures Told(c, s') && Continues(s, s') && End(s') == OnePrepared(d, Session(false, helper), false)
    ensures |s'.es| > |s.es| && s'.es[|s.es|] == Parent(0, Cancels) && |s'.ms[|s.es|].world.sessions| == 1
  {
    NothingDiscarded(c, d.live, d, d);
    hide VerifiedStage, Does, Start;
    s' := Then(c, s, Parent(0, Cancels), OnePrepared(d, Session(true, helper), true));
    var m := OnePrepared(d, Session(false, helper), true);
    assert m.world.sessions == End(s').world.sessions[0 := Session(false, helper)];
    s' := Then(c, s', Parent(0, Exits), m);
    s' := DiscardedTo(c, s', SiteOfToken(0), d);
  }

  /** A maintenance process discards what `site` and `after` say, and lets go. */
  lemma DiscardedTo(c: Setup, s: Story, site: Site, after: Disk) returns (s': Story)
    requires Told(c, s) && End(s).world.lock.NoOne? && End(s).world.site.present
    requires Does(c.plan, Discard, End(s).disk, after) && Discarded(End(s).world.site, site)
    requires !site.present ==> after.journal == None
    ensures Told(c, s') && Continues(s, s')
    ensures End(s') == Moment(after, End(s).world.(site := site), End(s).pre)
  {
    hide Does;
    var m := End(s);
    var held := m.(world := m.world.(lock := Maintaining(false)));
    s' := Then(c, s, Maintenance(TakesLock), held);
    var gone := Moment(after, held.world.(site := site), m.pre);
    s' := Then(c, s', Maintenance(Discards), gone);
    s' := Then(c, s', Maintenance(Releases), gone.(world := gone.world.(lock := NoOne)));
  }

  /** A helper whose parent is gone comes to call `apply` on the prepared journal. */
  lemma Applies(c: Setup, s: Story, t: nat) returns (s': Story)
    requires Told(c, s) && End(s).world.lock.NoOne? && t < |End(s).world.sessions|
    requires End(s).world.sessions[t] == Session(false, Loaded)
    requires End(s).world.site.present && !End(s).world.site.cancel && In(End(s).disk, Prepared)
    requires VerifiedStage(c.plan, End(s).disk.stage)
    ensures Told(c, s') && Continues(s, s') && |s'.es| > |s.es|
    ensures s'.es[|s'.es| - 1] == Handoff(t, StartsApply)
    ensures s'.ms[|s'.es| - 1].disk == End(s).disk && s'.ms[|s'.es| - 1].world.sessions == End(s').world.sessions
    ensures End(s').disk == End(s).disk && End(s').pre == End(s).pre && End(s').world.lock == Helper(t, ApplyRunning)
    ensures End(s').world.sessions == End(s).world.sessions[t := Session(false, Running)]
    ensures End(s').world.past == Past(End(s).world.past.stale || t != Last(End(s).world), true)
    ensures End(s').world.confirmers == End(s).world.confirmers
    ensures End(s').world.site == End(s).world.site.(ready := Some(t))
  {
    hide VerifiedStage;
    LeadsSelf(c, End(s));
    var m := HelperGetsThere(c, End(s), End(s), t);
    s' := ThenOn(c, s, m);
    s' := Then(c, s', Handoff(t, StartsApply), Began(m));
  }

  /** The cancel marker can be lost: a discard removes it and goes no further, and the helper, which
      had not taken the lock, applies the update although its parent has cancelled it. */
  lemma CancelCanBeLost() returns (c: Setup, ms: seq<Moment>, es: seq<Event>, i: nat, s: nat)
    ensures IsHistory(c, ms, es) && i < s < |es| && es[i] == Parent(0, Cancels) && es[s] == Handoff(0, StartsApply)
    ensures |ms[i].world.sessions| == |ms[s].world.sessions| == 1 && In(ms[s].disk, Prepared)
    ensures ms[s + 1].world.past == Past(false, true)
  {
    var live, d, story;
    c, live, d := Scene();
    hide VerifiedStage, Does;
    story := Spawned(c, live, d);
    i := |story.es|;
    story := CancelledInVain(c, story, d, Loaded);
    story := Applies(c, story, 0);
    s := |story.es| - 1;
    ms, es := story.ms, story.es;
  }

  /** The same with a helper so slow that it reads its plan only after all that, its parent long
      gone: `launch` writes the marker when the helper is late, and may die before it kills it. */
  lemma SlowHelperMissesCancel()
    returns (c: Setup, ms: seq<Moment>, es: seq<Event>, i: nat, h: nat, s: nat)
    ensures IsHistory(c, ms, es) && i < h < s < |es| && es[i] == Parent(0, Cancels) && es[h] == Handoff(0, Loads)
    ensures ms[h].world.sessions == [Session(false, Started)] && es[s] == Handoff(0, StartsApply)
    ensures |ms[i].world.sessions| == |ms[s].world.sessions| == 1 && In(ms[s].disk, Prepared)
    ensures ms[s + 1].world.past == Past(false, true)
  {
    var live, d, story;
    c, live, d := Scene();
    hide VerifiedStage, Does;
    story := Launched(c, live, d);
    i := |story.es|;
    story := CancelledInVain(c, story, d, Started);
    h := |story.es|;
    story := ReadsPlan(c, story, d, false);
    story := Applies(c, story, 0);
    s := |story.es| - 1;
    ms, es := story.ms, story.es;
  }

  function Began(m: Moment): Moment
    requires m.world.lock.Helper?
  {
    m.(world := Moved(m.world, m.world.lock.token, ApplyRunning).(past := m.world.past.(applied := true)))
  }

  // ---------------------------------------------------------------------------
  // The update itself

  lemma BeginsApplying(c: Setup, d: Disk, d': Disk)
    requires Start(c.plan, Dir(map[]), d) && c.plan.items == [["app"]]
    requires d' == Save(d, Journal(Applying, [], {}))
    ensures Does(c.plan, BeginApplying, d, d')
  {
    assert At(d.live, ["app"]) == None;
    var present := set item | item in c.plan.items && At(d.live, item).Some?;
    assert present == {} && d.journal.value.existing + present == {};
    assert forall item | item in c.plan.items :: CanMake(d.live, item);
  }

  lemma ReplacesApp(c: Setup, d: Disk, d': Disk)
    requires In(d, Applying) && !c.plan.bundle && c.plan.items == [["app"]] && d.journal.value.touched == [["app"]]
    requires d.live == Dir(map[]) && d.stage == Dir(map["app" := File([], true)]) && d' == d.(live := d.stage)
    ensures Does(c.plan, Replace(["app"]), d, d')
  {
    assert At(d.stage, ["app"]) == Some(File([], true)) && At(d.live, ["app"]) == None;
    PutOnlyAt(d.live, ["app"], File([], true));
    assert Put(File([], true), [], File([], true)) == Some(File([], true));
    assert Put(d.live, ["app"], File([], true)) == Some(d.stage);
  }

  lemma StagedHash(c: Setup, live: Tree, d: Disk)
    requires Start(c.plan, live, d) && c.executable == c.plan.files[0]
    ensures HashMatches(c.plan, c.executable, At(d.stage, FilePath(c.executable)))
  {
    assert Matches(c.plan, c.plan.files[0], At(d.stage, FilePath(c.plan.files[0])));
  }

  lemma InstalledApp(c: Setup, live: Tree, d: Disk)
    requires Start(c.plan, live, d) && c.plan.items == [["app"]]
    ensures AllNew(c.plan, d.stage)
  {
    forall item | item in c.plan.items ensures Installed(c.plan, d.stage, item) {
      InstalledFromStage(c.plan, d.stage, d.stage, item);
    }
  }

  /** The file is installed, and the journal still says Applying. */
  lemma Installs(c: Setup, s: Story, t: nat, d: Disk) returns (s': Story)
    requires Told(c, s) && End(s).world.lock == Helper(t, ApplyRunning) && End(s).disk == d
    requires Start(c.plan, Dir(map[]), d) && !c.plan.bundle && c.plan.items == [["app"]]
    requires d.stage == Dir(map["app" := File([], true)])
    ensures Told(c, s') && Continues(s, s')
    ensures End(s') == End(s).(disk := Disk(d.stage, d.stage, d.backup, Some(Journal(Applying, [["app"]], {}))))
  {
    var d1, d2 := Save(d, Journal(Applying, [], {})), Save(d, Journal(Applying, [["app"]], {}));
    var d3 := d2.(live := d.stage);
    BeginsApplying(c, d, d1);
    TouchesApp(c, d1, d2);
    ReplacesApp(c, d2, d3);
    hide Does, Start;
    s' := Acts(c, s, t, BeginApplying, d1);
    s' := Acts(c, s', t, Touch, d2);
    s' := Acts(c, s', t, Replace(["app"]), d3);
  }

  lemma Acts(c: Setup, s: Story, t: nat, step: Step, d: Disk) returns (s': Story)
    requires Told(c, s) && End(s).world.lock == Helper(t, ApplyRunning) && ApplyStep(step)
    requires Does(c.plan, step, End(s).disk, d)
    ensures Told(c, s') && Continues(s, s') && End(s') == End(s).(disk := d)
  {
    hide Does, Start, VerifiedStage;
    s' := Then(c, s, Install(t, ApplyActs(step)), End(s).(disk := d));
  }

  lemma TouchesApp(c: Setup, d: Disk, d': Disk)
    requires d.journal == Some(Journal(Applying, [], {})) && c.plan.items == [["app"]]
    requires d' == Save(d, Journal(Applying, [["app"]], {}))
    ensures Does(c.plan, Touch, d, d')
  {
    assert d.journal.value.touched + [["app"]] == [["app"]];
  }

  /** A helper that read the plan of a discarded transaction applies the next one, of the same
      artifact, while the parent that armed it is alive: the program changes under that parent. */
  lemma StaleHelperApplies() returns (c: Setup, ms: seq<Moment>, es: seq<Event>)
    ensures IsHistory(c, ms, es)
    ensures ParentLives(ms[|es|].world) && ms[|es|].disk.live != ms[|es|].pre
    ensures ms[|es|].world.lock == Helper(0, ApplyRunning)
    ensures Last(ms[|es|].world) == 1 && ms[|es|].world.site.plan == Some(1)
  {
    var live, d;
    c, live, d := Scene();
    hide VerifiedStage, Does;
    var s := Spawned(c, live, d);
    var bare := Disk(live, Dir(map[]), Dir(map[]), None);
    NothingDiscarded(c, live, d, bare);
    s := DiscardedTo(c, s, NOWHERE, bare);
    s := Rearmed(c, s, d);
    s := Applies(c, s, 0);
    s := Installs(c, s, 0, d);
    assert "app" in d.stage.entries && "app" !in live.entries;
    ms, es := s.ms, s.es;
  }

  /** The parent arms again, and the first parent is gone. */
  lemma Rearmed(c: Setup, s: Story, d: Disk) returns (s': Story)
    requires Told(c, s) && Start(c.plan, End(s).disk.live, d)
    requires End(s).world == World(NoOne, [Session(true, Loaded)], NOWHERE, [], Past(false, false))
    ensures Told(c, s') && Continues(s, s')
    ensures End(s') == Moment(d, World(NoOne, [Session(false, Loaded), Session(true, NotSpawned)], SiteOfToken(1), [],
                                       Past(false, false)), d.live)
  {
    hide VerifiedStage;
    var w1 := World(Arming, [Session(true, Loaded), Session(true, NotSpawned)], SiteOfToken(1), [], Past(false, false));
    s' := Then(c, s, Arm(Arms), Moment(d, w1, d.live));
    var w2 := w1.(lock := NoOne);
    s' := Then(c, s', Arm(ArmReleases), Moment(d, w2, d.live));
    var w3 := w2.(sessions := [Session(false, Loaded), Session(true, NotSpawned)]);
    assert w3.sessions == w2.sessions[0 := Session(false, Loaded)];
    s' := Then(c, s', Parent(0, Exits), Moment(d, w3, d.live));
  }

  // ---------------------------------------------------------------------------
  // Confirmed but not committed

  /** The new program runs and the helper waits for its confirmation. */
  lemma AwaitsChild(c: Setup, s: Story, d: Disk) returns (s': Story)
    requires Told(c, s) && End(s).world.lock == Helper(0, ApplyRunning) && c.plan.items == [["app"]]
    requires End(s).disk == d && d.journal == Some(Journal(Applying, [["app"]], {})) && AllNew(c.plan, d.live)
    ensures Told(c, s') && Continues(s, s')
    ensures End(s') == Moment(Save(d, Journal(AwaitingConfirmation, [["app"]], {})),
                              End(s).world.(lock := Helper(0, PollConfirmed)), End(s).pre)
  {
    var d1 := Save(d, Journal(AwaitingConfirmation, [["app"]], {}));
    assert Does(c.plan, Await, d, d1);
    hide Does, VerifiedStage, Start, AllNew;
    var m := End(s).(disk := d1);
    s' := Then(c, s, Install(0, ApplyActs(Await)), m);
    s' := Then(c, s', Install(0, ApplyReturnsOk), m.(world := Moved(m.world, 0, Relaunching)));
    s' := Then(c, s', Install(0, StartsChild), m.(world := Moved(m.world, 0, PollConfirmed)));
  }

  /** A process passes all checks of `confirm_startup`. */
  lemma Passes(c: Setup, s: Story) returns (s': Story)
    requires Told(c, s) && End(s).world.confirmers == [] && End(s).world.site.plan == Some(0)
    requires In(End(s).disk, AwaitingConfirmation)
    requires HashMatches(c.plan, c.executable, At(End(s).disk.live, FilePath(c.executable)))
    ensures Told(c, s') && Continues(s, s')
    ensures End(s') == End(s).(world := End(s).world.(confirmers := [Confirmer(0, Entitled)]))
  {
    hide Does, VerifiedStage, Start;
    var m := End(s);
    var w1 := m.world.(confirmers := [Confirmer(0, TokenMatched)]);
    s' := Then(c, s, Confirm(ChecksToken(0)), m.(world := w1));
    var w2 := m.world.(confirmers := [Confirmer(0, HashMatched)]);
    assert w2 == Advanced(w1, 0, HashMatched);
    s' := Then(c, s', Confirm(ChecksHash(0)), m.(world := w2));
    var w3 := m.world.(confirmers := [Confirmer(0, Entitled)]);
    assert w3 == Advanced(w2, 0, Entitled);
    s' := Then(c, s', Confirm(ChecksState(0)), m.(world := w3));
  }

  /** The helper gives up waiting. */
  lemma GivesUp(c: Setup, s: Story) returns (s': Story)
    requires Told(c, s) && End(s).world.lock == Helper(0, PollConfirmed)
    requires End(s).world.site == SiteOfToken(0).(ready := Some(0)) && End(s).disk.journal.Some?
    ensures Told(c, s') && Continues(s, s') && In(End(s').disk, Failed)
    ensures End(s').world == End(s).world.(lock := Helper(0, Leaving))
  {
    hide Does, VerifiedStage, Start;
    var m := End(s);
    s' := Then(c, s, Confirmation(0, SeesUnconfirmed), m.(world := Moved(m.world, 0, PollChild)));
    s' := Then(c, s', Confirmation(0, SeesChildAlive), m.(world := Moved(m.world, 0, PollConfirmClock)));
    var failed := Save(m.disk, m.disk.journal.value.(state := Failed));
    s' := Then(c, s', Confirmation(0, TimesOut), m.(disk := failed, world := Moved(m.world, 0, Leaving)));
  }

  /** The marker is written all the same. */
  lemma TooLate(c: Setup, s: Story) returns (s': Story)
    requires Told(c, s) && End(s).world.confirmers == [Confirmer(0, Entitled)] && End(s).world.site.present
    ensures Told(c, s') && Continues(s, s') && End(s').disk == End(s).disk
    ensures End(s').world.confirmers == [Confirmer(0, Returned)]
    ensures End(s').world.site == End(s).world.site.(confirmed := Some(0))
    ensures End(s').world.lock == End(s).world.lock
  {
    hide Does, VerifiedStage, Start;
    var m := End(s);
    var w := m.world.(confirmers := [Confirmer(0, Returned)], site := m.world.site.(confirmed := Some(0)));
    assert w == Advanced(m.world, 0, Returned).(site := m.world.site.(confirmed := Some(0)));
    s' := Then(c, s, Confirm(WritesMarker(0)), m.(world := w));
  }

  /** `confirm_startup` returns true although the update is not committed: between its checks and its
      marker the helper's deadline passes. */
  lemma ConfirmedNotCommitted() returns (c: Setup, ms: seq<Moment>, es: seq<Event>)
    ensures IsHistory(c, ms, es) && ms[|es|].world.confirmers == [Confirmer(0, Returned)]
    ensures ms[|es|].world.site.confirmed == Some(0) && ms[|es|].world.site.plan == Some(0) && In(ms[|es|].disk, Failed)
  {
    var live, d;
    c, live, d := Scene();
    hide VerifiedStage, Does;
    InstalledApp(c, live, d);
    StagedHash(c, live, d);
    hide AllNew, HashMatches;
    var s := Spawned(c, live, d);
    var m := End(s);
    var gone := m.(world := m.world.(sessions := [Session(false, Loaded)]));
    assert gone.world.sessions == m.world.sessions[0 := Session(false, Loaded)];
    s := Then(c, s, Parent(0, Exits), gone);
    s := Applies(c, s, 0);
    s := Installs(c, s, 0, d);
    s := AwaitsChild(c, s, End(s).disk);
    s := Passes(c, s);
    s := GivesUp(c, s);
    s := TooLate(c, s);
    ms, es := s.ms, s.es;
  }

  /** The helper finds its token in the marker. */
  lemma Acknowledges(c: Setup, s: Story) returns (s': Story)
    requires Told(c, s) && End(s).world.lock == Helper(0, PollConfirmed) && End(s).disk.journal.Some?
    requires End(s).world.site.confirmed == Some(0)
    ensures Told(c, s') && Continues(s, s') && End(s').disk.live == End(s).disk.live && In(End(s').disk, Committed)
  {
    hide Does, VerifiedStage, Start;
    var m := End(s);
    var committed := Save(m.disk, m.disk.journal.value.(state := Committed));
    s' := Then(c, s, Confirmation(0, SeesConfirmed), m.(disk := committed, world := Moved(m.world, 0, Leaving)));
  }

  /** An update as it should go: armed, handed over, applied, confirmed and committed. */
  lemma UpdateCommits() returns (c: Setup, ms: seq<Moment>, es: seq<Event>)
    ensures IsHistory(c, ms, es) && In(ms[|es|].disk, Committed)
    ensures At(ms[0].disk.live, ["app"]) == None && IsFile(At(ms[|es|].disk.live, ["app"]))
  {
    var live, d;
    c, live, d := Scene();
    hide VerifiedStage, Does;
    InstalledApp(c, live, d);
    StagedHash(c, live, d);
    hide AllNew, HashMatches;
    var s := Launched(c, live, d);
    var begin := s.ms[0];
    s := ReadsPlan(c, s, d, true);
    var m := End(s);
    var gone := m.(world := m.world.(sessions := [Session(false, Loaded)]));
    assert gone.world.sessions == m.world.sessions[0 := Session(false, Loaded)];
    s := Then(c, s, Parent(0, Exits), gone);
    s := Applies(c, s, 0);
    s := Installs(c, s, 0, d);
    s := AwaitsChild(c, s, End(s).disk);
    s := Passes(c, s);
    s := TooLate(c, s);
    s := Acknowledges(c, s);
    ms, es := s.ms, s.es;
    assert ms[0] == begin;
  }
}
