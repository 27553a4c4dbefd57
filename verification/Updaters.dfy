/** src/updater.rs: choosing a release among signed manifests, and preparing it. */
module Updaters {
  import opened Outcomes
  import opened Trees
  import opened FileStores
  import opened Manifests
  import opened Inventories
  import opened Archives
  import Paths

  const MAX_LOCATIONS: int := 100

  datatype ManifestLocation = ManifestLocation(document: string, signature: string)

  /** A verified manifest with its version, and the exact document it was parsed from. */
  datatype Release<V> = Release(version: V, manifest: ReleaseManifest, document: Bytes)

  datatype ReleaseNotes<V> = ReleaseNotes(version: V, notes: string)

  datatype Candidate<V> = Candidate(history: seq<ReleaseNotes<V>>, release: Release<V>, artifact: Artifact)

  /** The host's configuration and its surroundings: `less` and `prerelease` are what is used of
      versions, `fetch` is download and signature verification of one location. */
  datatype Updater<!V> = Updater(product: string, channel: string, currentVersion: V, target: string,
                                 maxDownload: u64, maxUnpacked: u64,
                                 less: (V, V) -> bool, prerelease: V -> bool,
                                 fetch: ManifestLocation -> Result<Release<V>>)

  ghost predicate StrictTotal<V(!new)>(less: (V, V) -> bool) {
    && (forall a :: !less(a, a))
    && (forall a, b :: less(a, b) || a == b || less(b, a))
    && (forall a, b, c :: less(a, b) && less(b, c) ==> less(a, c))
  }

  /** The first artifact for the target. */
  function FindArtifact(artifacts: seq<Artifact>, target: string): Option<Artifact> {
    if artifacts == [] then None
    else if artifacts[0].target == target then Some(artifacts[0])
    else FindArtifact(artifacts[1..], target)
  }

  /** The first one with that target, or none if there is none. */
  lemma {:induction false} FoundTarget(artifacts: seq<Artifact>, target: string)
    ensures FindArtifact(artifacts, target) == None <==> forall a | a in artifacts :: a.target != target
    ensures forall a :: FindArtifact(artifacts, target) == Some(a) <==>
              exists k :: && 0 <= k < |artifacts| && artifacts[k] == a && a.target == target
                          && forall j | 0 <= j < k :: artifacts[j].target != target
  {
    if artifacts == [] {
    } else if artifacts[0].target == target {
      assert artifacts[0] in artifacts;
    } else {
      var rest := artifacts[1..];
      FoundTarget(rest, target);
      assert artifacts == [artifacts[0]] + rest;
      forall a ensures FindArtifact(artifacts, target) == Some(a) <==>
        exists k :: && 0 <= k < |artifacts| && artifacts[k] == a && a.target == target
                    && forall j | 0 <= j < k :: artifacts[j].target != target
      {
        if k :| && 0 <= k < |rest| && rest[k] == a && a.target == target
                && forall j | 0 <= j < k :: rest[j].target != target
        {
          assert artifacts[k + 1] == a;
          forall j | 0 <= j < k + 1 ensures artifacts[j].target != target {
            if j > 0 { assert artifacts[j] == rest[j - 1]; }
          }
        }
        if k :| && 0 <= k < |artifacts| && artifacts[k] == a && a.target == target
                && forall j | 0 <= j < k :: artifacts[j].target != target
        {
          assert k > 0 && rest[k - 1] == a;
          forall j | 0 <= j < k - 1 ensures rest[j].target != target { assert artifacts[j + 1] == rest[j]; }
        }
      }
    }
  }

  /** Product, channel, newer version and the stable channel's refusal of prereleases. */
  predicate Suits<V(==)>(u: Updater<V>, release: Release<V>) {
    && release.manifest.product == u.product && release.manifest.channel == u.channel
    && u.less(u.currentVersion, release.version)
    && !(u.channel == "stable" && u.prerelease(release.version))
  }

  /** The applicable release at a location, if there is one. */
  function Offer<V(==)>(u: Updater<V>, l: ManifestLocation): Option<Release<V>> {
    match u.fetch(l)
    case Failure(_) => None
    case Success(release) =>
      if Suits(u, release) && FindArtifact(release.manifest.artifacts, u.target).Some? then Some(release) else None
  }

  predicate Offers<V(==)>(u: Updater<V>, l: ManifestLocation) { Offer(u, l).Some? }

  function OfferedVersion<V(==)>(u: Updater<V>, l: ManifestLocation): V
    requires Offers(u, l)
  {
    Offer(u, l).value.version
  }

  function OfferedNotes<V(==)>(u: Updater<V>, l: ManifestLocation): string
    requires Offers(u, l)
  {
    Offer(u, l).value.manifest.notes
  }

  // ---------------------------------------------------------------------------
  // What a check must find, whatever the order of the locations

  predicate Available<V(==)>(u: Updater<V>, ls: seq<ManifestLocation>) {
    forall l | l in ls :: u.fetch(l).Success?
  }

  predicate Agree<V(==)>(u: Updater<V>, a: ManifestLocation, b: ManifestLocation) {
    Offers(u, a) && Offers(u, b) && OfferedVersion(u, a) == OfferedVersion(u, b) ==>
        OfferedNotes(u, a) == OfferedNotes(u, b)
  }

  /** A check of these locations succeeds. */
  predicate Checkable<V(==)>(u: Updater<V>, ls: seq<ManifestLocation>) {
    |ls| <= MAX_LOCATIONS && Available(u, ls) && forall a, b | a in ls && b in ls :: Agree(u, a, b)
  }

  /** No offer is newer than version `v`. */
  predicate Newest<V(==)>(u: Updater<V>, ls: seq<ManifestLocation>, v: V) {
    forall l | l in ls && Offers(u, l) :: !u.less(v, OfferedVersion(u, l))
  }

  /** Location `i` is the first of those that offer the newest version. */
  predicate Wins<V(==)>(u: Updater<V>, ls: seq<ManifestLocation>, i: int) {
    && 0 <= i < |ls| && Offers(u, ls[i]) && Newest(u, ls, OfferedVersion(u, ls[i]))
    && forall j | 0 <= j < i :: Offers(u, ls[j]) ==> OfferedVersion(u, ls[j]) != OfferedVersion(u, ls[i])
  }

  predicate Ascending<V>(less: (V, V) -> bool, history: seq<ReleaseNotes<V>>) {
    forall i, j | 0 <= i < j < |history| :: less(history[i].version, history[j].version)
  }

  ghost predicate Offered<V(!new)>(u: Updater<V>, ls: seq<ManifestLocation>, h: ReleaseNotes<V>) {
    exists l :: l in ls && Offers(u, l) && OfferedVersion(u, l) == h.version && OfferedNotes(u, l) == h.notes
  }

  /** Strictly ascending, and exactly the offered versions with their notes. */
  ghost predicate IsHistory<V(!new)>(u: Updater<V>, ls: seq<ManifestLocation>, history: seq<ReleaseNotes<V>>) {
    && Ascending(u.less, history)
    && forall h :: h in history <==> Offered(u, ls, h)
  }

  ghost predicate IsCandidate<V(!new)>(u: Updater<V>, ls: seq<ManifestLocation>, c: Candidate<V>) {
    && IsHistory(u, ls, c.history)
    && (exists i :: Wins(u, ls, i) && Offer(u, ls[i]) == Some(c.release))
    && FindArtifact(c.release.manifest.artifacts, u.target) == Some(c.artifact)
  }

  ghost predicate CheckResult<V(!new)>(u: Updater<V>, ls: seq<ManifestLocation>, r: Result<Option<Candidate<V>>>) {
    match r
    case Failure(_) => !Checkable(u, ls)
    case Success(None) => Checkable(u, ls) && forall l | l in ls :: !Offers(u, l)
    case Success(Some(c)) => Checkable(u, ls) && IsCandidate(u, ls, c)
  }

  // ---------------------------------------------------------------------------
  // What a check answers, in plain terms

  /** What is published at `l` concerns this host: product and channel are its own, the version is
      newer and no prerelease on the stable channel, and some artifact is for its target. */
  ghost predicate Concerns<V(!new)>(u: Updater<V>, l: ManifestLocation) {
    && u.fetch(l).Success?
    && var release := u.fetch(l).value;
       && release.manifest.product == u.product && release.manifest.channel == u.channel
       && u.less(u.currentVersion, release.version)
       && (u.prerelease(release.version) ==> u.channel != "stable")
       && exists a :: a in release.manifest.artifacts && a.target == u.target
  }

  function VersionAt<V(!new)>(u: Updater<V>, l: ManifestLocation): V
    requires u.fetch(l).Success?
  {
    u.fetch(l).value.version
  }

  lemma OffersIff<V(!new)>(u: Updater<V>, l: ManifestLocation)
    ensures Offers(u, l) <==> Concerns(u, l)
    ensures Offers(u, l) ==> u.fetch(l).Success? && Offer(u, l).value == u.fetch(l).value
  {
    if u.fetch(l).Success? { FoundTarget(u.fetch(l).value.manifest.artifacts, u.target); }
  }

  /** A check fails on more than 100 locations, on one that is unavailable, and on two releases that
      concern this host and give different notes for one version; it finds nothing exactly if no
      release concerns this host; otherwise it finds the first of the newest, its first artifact for
      the target, and all versions that concern this host with their notes. */
  lemma CheckMeans<V(!new)>(u: Updater<V>, ls: seq<ManifestLocation>, r: Result<Option<Candidate<V>>>)
    requires CheckResult(u, ls, r)
    ensures r.Success? <==>
              && |ls| <= 100 && (forall l | l in ls :: u.fetch(l).Success?)
              && forall a, b | a in ls && b in ls && Concerns(u, a) && Concerns(u, b)
                               && VersionAt(u, a) == VersionAt(u, b) ::
                   u.fetch(a).value.manifest.notes == u.fetch(b).value.manifest.notes
    ensures r.Success? ==> (r.value == None <==> forall l | l in ls :: !Concerns(u, l))
    ensures r.Success? && r.value.Some? ==>
              var c := r.value.value;
              && (exists i :: && 0 <= i < |ls| && Concerns(u, ls[i]) && u.fetch(ls[i]) == Success(c.release)
                              && (forall l | l in ls && Concerns(u, l) :: !u.less(c.release.version, VersionAt(u, l)))
                              && forall j | 0 <= j < i && Concerns(u, ls[j]) ::
                                   VersionAt(u, ls[j]) != c.release.version)
              && (exists k :: && 0 <= k < |c.release.manifest.artifacts|
                              && c.release.manifest.artifacts[k] == c.artifact && c.artifact.target == u.target
                              && forall j | 0 <= j < k :: c.release.manifest.artifacts[j].target != u.target)
              && (forall i, j | 0 <= i < j < |c.history| :: u.less(c.history[i].version, c.history[j].version))
              && (forall h :: h in c.history <==>
                    exists l :: l in ls && Concerns(u, l) && h.version == VersionAt(u, l)
                                && h.notes == u.fetch(l).value.manifest.notes)
  {
    forall l | l in ls
      ensures Offers(u, l) <==> Concerns(u, l)
      ensures Offers(u, l) ==> u.fetch(l).Success? && Offer(u, l).value == u.fetch(l).value
    { OffersIff(u, l); }
    hide Concerns, Offers, Offer, FindArtifact;
    if r.Success? {
      forall a, b | a in ls && b in ls && Concerns(u, a) && Concerns(u, b) && VersionAt(u, a) == VersionAt(u, b)
        ensures u.fetch(a).value.manifest.notes == u.fetch(b).value.manifest.notes
      { assert Agree(u, a, b); }
      if r.value.Some? { CandidateMeans(u, ls, r.value.value); }
    }
  }

  lemma CandidateMeans<V(!new)>(u: Updater<V>, ls: seq<ManifestLocation>, c: Candidate<V>)
    requires IsCandidate(u, ls, c)
    ensures exists i :: && 0 <= i < |ls| && Concerns(u, ls[i]) && u.fetch(ls[i]) == Success(c.release)
                        && (forall l | l in ls && Concerns(u, l) :: !u.less(c.release.version, VersionAt(u, l)))
                        && forall j | 0 <= j < i && Concerns(u, ls[j]) :: VersionAt(u, ls[j]) != c.release.version
    ensures exists k :: && 0 <= k < |c.release.manifest.artifacts|
                        && c.release.manifest.artifacts[k] == c.artifact && c.artifact.target == u.target
                        && forall j | 0 <= j < k :: c.release.manifest.artifacts[j].target != u.target
    ensures forall h :: h in c.history <==>
              exists l :: l in ls && Concerns(u, l) && h.version == VersionAt(u, l)
                          && h.notes == u.fetch(l).value.manifest.notes
  {
    forall l | l in ls
      ensures Offers(u, l) <==> Concerns(u, l)
      ensures Offers(u, l) ==> u.fetch(l).Success? && Offer(u, l).value == u.fetch(l).value
    { OffersIff(u, l); }
    FoundTarget(c.release.manifest.artifacts, u.target);
    hide Concerns, Offers, Offer, FindArtifact;
    var i :| Wins(u, ls, i) && Offer(u, ls[i]) == Some(c.release);
    assert ls[i] in ls;
    forall h ensures h in c.history <==>
      exists l :: l in ls && Concerns(u, l) && h.version == VersionAt(u, l)
                  && h.notes == u.fetch(l).value.manifest.notes
    {
      assert h in c.history <==> Offered(u, ls, h);
    }
  }

  // ---------------------------------------------------------------------------
  // Order and repetition do not matter

  ghost predicate SameLocations(ls: seq<ManifestLocation>, ls': seq<ManifestLocation>) {
    forall l :: l in ls <==> l in ls'
  }

  lemma BothEmpty<T>(s: seq<T>, t: seq<T>)
    requires forall x :: x in s <==> x in t
    ensures s == [] <==> t == []
  {
    if s != [] { assert s[0] in t; }
    if t != [] { assert t[0] in s; }
  }

  /** A strictly ascending sequence is determined by its elements. */
  lemma {:induction false} AscendingUnique<V(!new)>(less: (V, V) -> bool, s: seq<ReleaseNotes<V>>,
                                             t: seq<ReleaseNotes<V>>)
    requires StrictTotal(less) && Ascending(less, s) && Ascending(less, t) && forall h :: h in s <==> h in t
    ensures s == t
    decreases |s|
  {
    BothEmpty(s, t);
    if s == [] {
    } else {
      assert s[0] in t && t[0] in s;
      var s', t' := s[1..], t[1..];
      assert s[0] == t[0] by { FirstIsLeast(less, s, t[0]); FirstIsLeast(less, t, s[0]); }
      forall h ensures h in s' <==> h in t' {
        InTail(less, s, h);
        InTail(less, t, h);
      }
      AscendingUnique(less, s', t');
    }
  }

  lemma FirstIsLeast<V(!new)>(less: (V, V) -> bool, s: seq<ReleaseNotes<V>>, h: ReleaseNotes<V>)
    requires StrictTotal(less) && Ascending(less, s) && h in s
    ensures h == s[0] || less(s[0].version, h.version)
  {
  }

  lemma InTail<V(!new)>(less: (V, V) -> bool, s: seq<ReleaseNotes<V>>, h: ReleaseNotes<V>)
    requires StrictTotal(less) && Ascending(less, s) && s != []
    ensures h in s[1..] <==> h in s && h != s[0]
  {
    assert s == [s[0]] + s[1..];
    if h in s[1..] {
      var i :| 0 <= i < |s[1..]| && s[1..][i] == h;
      assert less(s[0].version, s[i + 1].version);
    }
  }

  /** Listing the locations in another order, or some of them repeatedly, changes neither success
      nor failure, nor the selected version and its notes, nor the history. */
  lemma OrderIsInvisible<V(!new)>(u: Updater<V>, ls: seq<ManifestLocation>, ls': seq<ManifestLocation>,
                                  r: Result<Option<Candidate<V>>>, r': Result<Option<Candidate<V>>>)
    requires StrictTotal(u.less) && SameLocations(ls, ls') && |ls| <= MAX_LOCATIONS && |ls'| <= MAX_LOCATIONS
    requires CheckResult(u, ls, r) && CheckResult(u, ls', r')
    ensures r.Success? <==> r'.Success?
    ensures r.Success? ==> (r.value.Some? <==> r'.value.Some?)
    ensures r.Success? && r.value.Some? ==>
              var c, c' := r.value.value, r'.value.value;
              && c.history == c'.history
              && c.release.version == c'.release.version
              && c.release.manifest.notes == c'.release.manifest.notes
  {
    assert Checkable(u, ls) <==> Checkable(u, ls');
    if r.Success? {
      if r.value.Some? {
        var i :| Wins(u, ls, i) && Offer(u, ls[i]) == Some(r.value.value.release);
        assert ls[i] in ls';
      }
      if r'.value.Some? {
        var i :| Wins(u, ls', i) && Offer(u, ls'[i]) == Some(r'.value.value.release);
        assert ls'[i] in ls;
      }
      if r.value.Some? {
        SameVersion(u, ls, ls', r.value.value, r'.value.value);
        forall h ensures h in r.value.value.history <==> h in r'.value.value.history {
          assert Offered(u, ls, h) <==> Offered(u, ls', h);
        }
        AscendingUnique(u.less, r.value.value.history, r'.value.value.history);
      }
    }
  }

  lemma SameVersion<V(!new)>(u: Updater<V>, ls: seq<ManifestLocation>, ls': seq<ManifestLocation>, c: Candidate<V>,
                      c': Candidate<V>)
    requires StrictTotal(u.less) && SameLocations(ls, ls') && Checkable(u, ls) && IsCandidate(u, ls, c)
    requires IsCandidate(u, ls', c')
    ensures c.release.version == c'.release.version && c.release.manifest.notes == c'.release.manifest.notes
  {
    var i :| Wins(u, ls, i) && Offer(u, ls[i]) == Some(c.release);
    var j :| Wins(u, ls', j) && Offer(u, ls'[j]) == Some(c'.release);
    assert ls[i] in ls' && ls'[j] in ls;
    assert Agree(u, ls[i], ls'[j]);
  }

  lemma NoOfferIsNewer<V(!new)>(u: Updater<V>, ls: seq<ManifestLocation>, i: nat, h: ReleaseNotes<V>)
    requires Wins(u, ls, i) && Offered(u, ls, h)
    ensures !u.less(OfferedVersion(u, ls[i]), h.version)
  {
  }

  lemma GreatestIsLast<V(!new)>(less: (V, V) -> bool, history: seq<ReleaseNotes<V>>, h: ReleaseNotes<V>)
    requires Ascending(less, history) && h in history && forall g | g in history :: !less(h.version, g.version)
    ensures history != [] && history[|history| - 1] == h
  {
    var k :| 0 <= k < |history| && history[k] == h;
    assert history[|history| - 1] in history;
  }

  /** The history ends in the selected release. */
  lemma HistoryEndsInSelection<V(!new)>(u: Updater<V>, ls: seq<ManifestLocation>, c: Candidate<V>)
    requires IsCandidate(u, ls, c)
    ensures c.history != []
    ensures c.history[|c.history| - 1] == ReleaseNotes(c.release.version, c.release.manifest.notes)
  {
    var i :| Wins(u, ls, i) && Offer(u, ls[i]) == Some(c.release);
    var h := ReleaseNotes(c.release.version, c.release.manifest.notes);
    assert Offered(u, ls, h) by { assert ls[i] in ls; }
    assert h in c.history;
    forall g | g in c.history ensures !u.less(h.version, g.version) {
      assert Offered(u, ls, g);
      NoOfferIsNewer(u, ls, i, g);
    }
    GreatestIsLast(u.less, c.history, h);
  }

  /** Which signed document wins does depend on the order, exactly when the newest version is
      offered by documents that differ. */
  lemma WinnerDependsOnOrder<V(!new)>(u: Updater<V>, ls: seq<ManifestLocation>, i: nat)
    requires StrictTotal(u.less) && Wins(u, ls, i)
    ensures (forall ls': seq<ManifestLocation>, j | SameLocations(ls, ls') && Wins(u, ls', j) ::
           Offer(u, ls'[j]) == Offer(u, ls[i]))
            <==> (forall l | l in ls && Offers(u, l) && OfferedVersion(u, l) == OfferedVersion(u, ls[i]) ::
                    Offer(u, l) == Offer(u, ls[i]))
  {
    if forall l | l in ls && Offers(u, l) && OfferedVersion(u, l) == OfferedVersion(u, ls[i]) ::
         Offer(u, l) == Offer(u, ls[i])
    {
      forall ls': seq<ManifestLocation>, j | SameLocations(ls, ls') && Wins(u, ls', j)
        ensures Offer(u, ls'[j]) == Offer(u, ls[i])
      {
        assert ls'[j] in ls && ls[i] in ls';
      }
    }
    if forall ls': seq<ManifestLocation>, j | SameLocations(ls, ls') && Wins(u, ls', j) ::
         Offer(u, ls'[j]) == Offer(u, ls[i])
    {
      forall l | l in ls && Offers(u, l) && OfferedVersion(u, l) == OfferedVersion(u, ls[i])
        ensures Offer(u, l) == Offer(u, ls[i])
      {
        var ls' := [l] + ls;
        assert SameLocations(ls, ls') && Wins(u, ls', 0);
      }
    }
  }

  // ---------------------------------------------------------------------------

  /** Iteration over a `BTreeMap`. */
  method InOrder<V(==,!new)>(less: (V, V) -> bool, history: map<V, string>) returns (r: seq<ReleaseNotes<V>>)
    requires StrictTotal(less)
    ensures Ascending(less, r)
    ensures forall h :: h in r <==> h.version in history && history[h.version] == h.notes
  {
    r := [];
    var todo := history.Keys;
    while todo != {}
      invariant todo <= history.Keys && Ascending(less, r)
      invariant forall h :: h in r <==> h.version in history && h.version !in todo && history[h.version] == h.notes
      invariant forall h, v | h in r && v in todo :: less(h.version, v)
      decreases todo
    {
      var v := Least(less, todo);
      var h := ReleaseNotes(v, history[v]);
      forall i | 0 <= i < |r| ensures less(r[i].version, v) { assert r[i] in r; }
      r := r + [h];
      todo := todo - {v};
    }
  }

  method Least<V(==,!new)>(less: (V, V) -> bool, s: set<V>) returns (v: V)
    requires StrictTotal(less) && s != {}
    ensures v in s && forall w | w in s && w != v :: less(v, w)
  {
    v :| v in s;
    var todo := s - {v};
    while todo != {}
      invariant todo <= s && v in s && v !in todo
      invariant forall w | w in s - todo && w != v :: less(v, w)
      decreases todo
    {
      var w :| w in todo;
      todo := todo - {w};
      if less(w, v) {
        forall x | x in s - todo && x != w ensures less(w, x) { assert x == v || (less(w, v) && less(v, x)); }
        v := w;
      }
    }
  }

  ghost predicate Recorded<V(!new)>(u: Updater<V>, ls: seq<ManifestLocation>, history: map<V, string>) {
    && (forall l | l in ls && Offers(u, l) ::
           OfferedVersion(u, l) in history && history[OfferedVersion(u, l)] == OfferedNotes(u, l))
    && (forall v | v in history :: OffersVersion(u, ls, v))
  }

  ghost predicate OffersVersion<V(!new)>(u: Updater<V>, ls: seq<ManifestLocation>, v: V) {
    exists l :: l in ls && Offers(u, l) && OfferedVersion(u, l) == v
  }

  ghost predicate IsBest<V(!new)>(u: Updater<V>, ls: seq<ManifestLocation>, best: Option<Candidate<V>>) {
    match best
    case None => forall l | l in ls :: !Offers(u, l)
    case Some(c) =>
      && (exists i :: Wins(u, ls, i) && Offer(u, ls[i]) == Some(c.release))
      && FindArtifact(c.release.manifest.artifacts, u.target) == Some(c.artifact)
  }

  /** What the loop of `check` knows after the locations `ls`. */
  ghost predicate Gathered<V(!new)>(u: Updater<V>, ls: seq<ManifestLocation>, best: Option<Candidate<V>>,
                             history: map<V, string>) {
    Checkable(u, ls) && Recorded(u, ls, history) && IsBest(u, ls, best)
  }

  lemma WinsLonger<V(!new)>(u: Updater<V>, ls: seq<ManifestLocation>, l: ManifestLocation, i: nat)
    requires Wins(u, ls, i) && (Offers(u, l) ==> !u.less(OfferedVersion(u, ls[i]), OfferedVersion(u, l)))
    ensures Wins(u, ls + [l], i) && (ls + [l])[i] == ls[i]
  {
  }

  lemma LaterWins<V(!new)>(u: Updater<V>, ls: seq<ManifestLocation>, l: ManifestLocation, i: nat)
    requires StrictTotal(u.less) && Wins(u, ls, i) && Offers(u, l)
    requires u.less(OfferedVersion(u, ls[i]), OfferedVersion(u, l))
    ensures Wins(u, ls + [l], |ls|) && (ls + [l])[|ls|] == l
  {
    forall j | 0 <= j < |ls|
      ensures Offers(u, ls[j]) ==> OfferedVersion(u, ls[j]) != OfferedVersion(u, l)
    { assert ls[j] in ls; }
  }

  lemma NothingNew<V(!new)>(u: Updater<V>, ls: seq<ManifestLocation>, l: ManifestLocation, best: Option<Candidate<V>>,
                     history: map<V, string>)
    requires StrictTotal(u.less) && Gathered(u, ls, best, history) && |ls| < MAX_LOCATIONS
    requires l in ls || (u.fetch(l).Success? && !Offers(u, l))
    ensures Gathered(u, ls + [l], best, history)
  {
    assert forall v | v in history :: OffersVersion(u, ls, v) ==> OffersVersion(u, ls + [l], v);
    if best.Some? {
      var i :| Wins(u, ls, i) && Offer(u, ls[i]) == Some(best.value.release);
      WinsLonger(u, ls, l, i);
    }
  }

  lemma MoreCheckable<V(!new)>(u: Updater<V>, ls: seq<ManifestLocation>, l: ManifestLocation, history: map<V, string>)
    requires Checkable(u, ls) && Recorded(u, ls, history) && |ls| < MAX_LOCATIONS && Offers(u, l)
    requires OfferedVersion(u, l) in history ==> history[OfferedVersion(u, l)] == OfferedNotes(u, l)
    ensures Checkable(u, ls + [l])
  {
  }

  lemma MoreRecorded<V(!new)>(u: Updater<V>, ls: seq<ManifestLocation>, l: ManifestLocation, history: map<V, string>)
    requires Recorded(u, ls, history) && Offers(u, l)
    requires OfferedVersion(u, l) in history ==> history[OfferedVersion(u, l)] == OfferedNotes(u, l)
    ensures Recorded(u, ls + [l], history[OfferedVersion(u, l) := OfferedNotes(u, l)])
  {
    var ls', history' := ls + [l], history[OfferedVersion(u, l) := OfferedNotes(u, l)];
    forall v | v in history' ensures OffersVersion(u, ls', v) {
      if v == OfferedVersion(u, l) {
        assert l in ls';
      } else {
        assert OffersVersion(u, ls, v);
        var l' :| l' in ls && Offers(u, l') && OfferedVersion(u, l') == v;
        assert l' in ls';
      }
    }
  }

  lemma MoreBest<V(!new)>(u: Updater<V>, ls: seq<ManifestLocation>, l: ManifestLocation, best: Option<Candidate<V>>,
                   best': Option<Candidate<V>>)
    requires StrictTotal(u.less) && IsBest(u, ls, best) && Offers(u, l)
    requires if best.Some? && !u.less(best.value.release.version, OfferedVersion(u, l)) then best' == best
             else best'.Some? && Offer(u, l) == Some(best'.value.release)
                  && FindArtifact(best'.value.release.manifest.artifacts, u.target) == Some(best'.value.artifact)
    ensures IsBest(u, ls + [l], best')
  {
    if best.Some? {
      var i :| Wins(u, ls, i) && Offer(u, ls[i]) == Some(best.value.release);
      if u.less(OfferedVersion(u, ls[i]), OfferedVersion(u, l)) {
        LaterWins(u, ls, l, i);
      } else {
        WinsLonger(u, ls, l, i);
      }
    } else {
      assert Wins(u, ls + [l], |ls|);
    }
  }

  lemma OneMoreOffer<V(!new)>(u: Updater<V>, ls: seq<ManifestLocation>, l: ManifestLocation,
                              best: Option<Candidate<V>>, history: map<V, string>, best': Option<Candidate<V>>)
    requires StrictTotal(u.less) && Gathered(u, ls, best, history) && |ls| < MAX_LOCATIONS && Offers(u, l)
    requires OfferedVersion(u, l) in history ==> history[OfferedVersion(u, l)] == OfferedNotes(u, l)
    requires if best.Some? && !u.less(best.value.release.version, OfferedVersion(u, l)) then best' == best
             else best'.Some? && Offer(u, l) == Some(best'.value.release)
                  && FindArtifact(best'.value.release.manifest.artifacts, u.target) == Some(best'.value.artifact)
    ensures Gathered(u, ls + [l], best', history[OfferedVersion(u, l) := OfferedNotes(u, l)])
  {
    MoreCheckable(u, ls, l, history);
    MoreRecorded(u, ls, l, history);
    MoreBest(u, ls, l, best, best');
  }

  /** `check`, for locations already discovered. */
  method Check<V(==,!new)>(u: Updater<V>, ls: seq<ManifestLocation>, reliable: bool)
    returns (r: Result<Option<Candidate<V>>>)
    requires StrictTotal(u.less)
    ensures r.Success? || reliable ==> CheckResult(u, ls, r)
  {
    if |ls| > MAX_LOCATIONS { return Failure(SizeLimit); }
    var best: Option<Candidate<V>> := None;
    var history: map<V, string> := map[];
    var seen: set<ManifestLocation> := {};
    var k := 0;
    while k < |ls|
      invariant 0 <= k <= |ls| && seen == set l | l in ls[..k]
      invariant Gathered(u, ls[..k], best, history)
    {
      var next := CheckNext(u, ls[..k], ls[k], seen, best, history, reliable);
      if Checkable(u, ls) { PartCheckable(u, ls, k); }
      if next.Failure? { return Failure(next.error); }
      best, history := next.value.0, next.value.1;
      assert ls[..k + 1] == ls[..k] + [ls[k]];
      seen := seen + {ls[k]};
      k := k + 1;
    }
    assert ls[..k] == ls;
    if best.Some? {
      var ordered := InOrder(u.less, history);
      Collected(u, ls, best.value, history, ordered);
      best := Some(best.value.(history := ordered));
    }
    return Success(best);
  }

  lemma Collected<V(!new)>(u: Updater<V>, ls: seq<ManifestLocation>, c: Candidate<V>, history: map<V, string>,
                    ordered: seq<ReleaseNotes<V>>)
    requires StrictTotal(u.less) && Gathered(u, ls, Some(c), history) && Ascending(u.less, ordered)
    requires forall h :: h in ordered <==> h.version in history && history[h.version] == h.notes
    ensures IsHistory(u, ls, ordered)
  {
    forall h ensures h in ordered <==> Offered(u, ls, h) {
      if h in ordered {
        assert OffersVersion(u, ls, h.version);
        var l :| l in ls && Offers(u, l) && OfferedVersion(u, l) == h.version;
      }
    }
  }

  /** Download and verify one manifest, and test whether it applies. */
  method FetchOffer<V(==)>(u: Updater<V>, l: ManifestLocation) returns (r: Result<Option<(Release<V>, Artifact)>>)
    ensures r.Success? <==> u.fetch(l).Success?
    ensures r.Success? && r.value == None ==> !Offers(u, l)
    ensures r.Success? && r.value.Some? ==>
              && Offer(u, l) == Some(r.value.value.0)
              && FindArtifact(r.value.value.0.manifest.artifacts, u.target) == Some(r.value.value.1)
  {
    var fetched := u.fetch(l);
    if fetched.Failure? { return Failure(fetched.error); }
    var release := fetched.value;
    if release.manifest.product != u.product || release.manifest.channel != u.channel { return Success(None); }
    if !u.less(u.currentVersion, release.version) || (u.channel == "stable" && u.prerelease(release.version)) {
      return Success(None);
    }
    var artifact := FindArtifact(release.manifest.artifacts, u.target);
    if artifact == None { return Success(None); }
    return Success(Some((release, artifact.value)));
  }

  /** One round of the loop: location `l` after the locations `done`. */
  method CheckNext<V(==,!new)>(u: Updater<V>, ghost done: seq<ManifestLocation>, l: ManifestLocation,
                     seen: set<ManifestLocation>,
                               best: Option<Candidate<V>>, history: map<V, string>, reliable: bool)
    returns (r: Result<(Option<Candidate<V>>, map<V, string>)>)
    requires StrictTotal(u.less) && |done| < MAX_LOCATIONS && seen == (set x | x in done)
    requires Gathered(u, done, best, history)
    ensures r.Success? ==> Gathered(u, done + [l], r.value.0, r.value.1)
    ensures reliable && r.Failure? ==> !Checkable(u, done + [l])
  {
    var o := Fault(reliable);
    if !o.Ok? { return Failure(Cancelled); }
    if l in seen {
      NothingNew(u, done, l, best, history);
      return Success((best, history));
    }
    var offer := FetchOffer(u, l);
    if offer.Failure? {
      Unavailable(u, done, l);
      return Failure(offer.error);
    }
    if offer.value == None {
      NothingNew(u, done, l, best, history);
      return Success((best, history));
    }
    var (release, artifact) := offer.value.value;
    if release.version in history && history[release.version] != release.manifest.notes {
      Conflict(u, done, l, history);
      return Failure(Invalid);
    }
    var best' := if best.Some? && !u.less(best.value.release.version, release.version) then best
                 else Some(Candidate([], release, artifact));
    OneMoreOffer(u, done, l, best, history, best');
    return Success((best', history[release.version := release.manifest.notes]));
  }

  lemma Unavailable<V(!new)>(u: Updater<V>, done: seq<ManifestLocation>, l: ManifestLocation)
    requires u.fetch(l).Failure?
    ensures !Checkable(u, done + [l])
  {
    assert l in done + [l];
  }

  lemma Conflict<V(!new)>(u: Updater<V>, done: seq<ManifestLocation>, l: ManifestLocation, history: map<V, string>)
    requires Recorded(u, done, history) && Offers(u, l)
    requires OfferedVersion(u, l) in history && history[OfferedVersion(u, l)] != OfferedNotes(u, l)
    ensures !Checkable(u, done + [l])
  {
    assert OffersVersion(u, done, OfferedVersion(u, l));
    var other :| other in done && Offers(u, other) && OfferedVersion(u, other) == OfferedVersion(u, l);
    assert other in done + [l] && l in done + [l] && !Agree(u, other, l);
  }

  lemma PartCheckable<V(!new)>(u: Updater<V>, ls: seq<ManifestLocation>, k: nat)
    requires k < |ls| && Checkable(u, ls)
    ensures Checkable(u, ls[..k] + [ls[k]])
  {
    assert ls[..k + 1] == ls[..k] + [ls[k]];
    forall l | l in ls[..k + 1] ensures l in ls {}
  }

  // ---------------------------------------------------------------------------
  // Preparing a candidate

  /** The candidate fits this updater, whichever updater found it; `verified` is its document
      verified against this updater's keys. */
  predicate Admissible<V(==)>(u: Updater<V>, c: Candidate<V>, verified: Result<Release<V>>) {
    && verified.Success? && Suits(u, verified.value)
    && c.artifact.target == u.target && c.artifact.size <= u.maxDownload
  }

  /** The download is the signed package. */
  predicate Genuine(a: Artifact, zip: Bytes, digest: Bytes -> string) {
    |zip| == a.size && Paths.Fold(digest(zip)) == Paths.Fold(a.sha256)
  }


  /** Which downloads are unpacked: the document verifies against the updater's own keys and suits
      it, the artifact is for its target and not too large, and the bytes are the signed ones. */
  lemma PreparableIff<V(!new)>(u: Updater<V>, c: Candidate<V>, verified: Result<Release<V>>, zip: Bytes,
                               digest: Bytes -> string)
    ensures Admissible(u, c, verified) && Genuine(c.artifact, zip, digest) <==>
              && verified.Success?
              && verified.value.manifest.product == u.product && verified.value.manifest.channel == u.channel
              && u.less(u.currentVersion, verified.value.version)
              && (u.prerelease(verified.value.version) ==> u.channel != "stable")
              && c.artifact.target == u.target && c.artifact.size <= u.maxDownload
              && |zip| == c.artifact.size && SameButCase(digest(zip), c.artifact.sha256)
  {
    FoldsAgree(digest(zip), c.artifact.sha256);
  }

  /** A candidate passes the renewed test of the updater that found it exactly if it is not too
      large to download. */
  lemma CheckedIsAdmissible<V(!new)>(u: Updater<V>, ls: seq<ManifestLocation>, c: Candidate<V>)
    requires CheckResult(u, ls, Success(Some(c)))
    ensures Admissible(u, c, Success(c.release)) <==> c.artifact.size <= u.maxDownload
  {
    var i :| Wins(u, ls, i) && Offer(u, ls[i]) == Some(c.release);
    FoundTarget(c.release.manifest.artifacts, u.target);
  }

  /** `prepare`: test again, download, compare with the signed size and hash, extract. */
  method Prepare<V(==)>(u: Updater<V>, c: Candidate<V>, verified: Result<Release<V>>, zip: Bytes,
                   decode: Bytes -> Option<seq<ArchiveEntry>>,
                        digest: Bytes -> string, stage: FileStore)
    returns (o: Outcome, ghost made: seq<Placed>)
    requires ValidInventory(c.artifact.files) && stage.tree == Dir(map[])
    modifies stage
    ensures Limited(stage.tree, c.artifact.files, u.maxUnpacked, made)
    ensures o.Ok? ==>
              && Admissible(u, c, verified) && Genuine(c.artifact, zip, digest) && decode(zip).Some?
              && Extractable(decode(zip).value, c.artifact.files, digest, u.maxUnpacked)
              && Delivered(decode(zip).value, c.artifact.files, stage.tree)
    ensures stage.reliable ==>
              && !o.Crashed?
              && (o.Ok? <==> && Admissible(u, c, verified) && Genuine(c.artifact, zip, digest) && decode(zip).Some?
                             && Extractable(decode(zip).value, c.artifact.files, digest, u.maxUnpacked))
  {
    made := [];
    LoopStarts([], c.artifact.files, digest, u.maxUnpacked);
    if verified.Failure? { return Err(verified.error), made; }
    if !Suits(u, verified.value) || c.artifact.target != u.target { return Err(Invalid), made; }
    if c.artifact.size > u.maxDownload { return Err(SizeLimit), made; }
    o := Fault(stage.reliable);
    if !o.Ok? { return; }
    if !Genuine(c.artifact, zip, digest) { return Err(HashMismatch), made; }
    var entries := decode(zip);
    if entries == None { return Err(Invalid), made; }
    o, made := Extract(stage, entries.value, c.artifact.files, digest, u.maxUnpacked);
  }
}
