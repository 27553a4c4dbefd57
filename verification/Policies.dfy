/** The local installation policy of src/install.rs, and the plan it yields for an artifact. */
module Policies {
  import opened Outcomes
  import opened Paths
  import opened Trees
  import opened Manifests
  import opened Transactions
  import opened CrashSafety
  import opened Frames

  const MAX_TIMEOUT_SECS: int := 3600

  datatype InstallLayout =
    | Portable(ownedFiles: seq<string>, executable: string, expandableDirectories: seq<string>)
    | Bundle(bundleName: string, executable: string, bundleId: string, teamId: string)

  datatype InstallPolicy = InstallPolicy(layout: InstallLayout, exitTimeoutSecs: u64, confirmationTimeoutSecs: u64)

  predicate StartsWith(s: string, prefix: string) { |prefix| <= |s| && s[..|prefix|] == prefix }

  predicate EndsWith(s: string, suffix: string) { |suffix| <= |s| && s[|s| - |suffix|..] == suffix }

  predicate SigningIdentity(value: string) {
    value != "" && forall i | 0 <= i < |value| ::
      'a' <= value[i] <= 'z' || 'A' <= value[i] <= 'Z' || '0' <= value[i] <= '9' || value[i] in {'.', '-'}
  }

  /** Strictly beneath a directory the host named. */
  predicate Expanded(layout: InstallLayout, path: string)
    requires layout.Portable?
  {
    exists i | 0 <= i < |layout.expandableDirectories| :: SlashAncestor(layout.expandableDirectories[i], path)
  }

  /** Owned by name, or admitted by a directory the host named. */
  predicate Admitted(layout: InstallLayout, path: string)
    requires layout.Portable?
  {
    path in layout.ownedFiles || Expanded(layout, path)
  }

  predicate Received(a: Artifact, path: string) { exists i :: 0 <= i < |a.files| && a.files[i].path == path }

  predicate ValidLayout(layout: InstallLayout, a: Artifact, macos: bool) {
    match layout
    case Portable(owned, executable, expandable) =>
      && a.kind == Files
      && (forall i | 0 <= i < |owned| :: CheckPath(owned[i]) && Received(a, owned[i]))
      && (forall i, j | 0 <= i < j < |owned| :: owned[i] != owned[j])
      && (forall i | 0 <= i < |expandable| :: CheckPath(expandable[i]))
      && (forall i | 0 <= i < |a.files| :: Admitted(layout, a.files[i].path))
      && executable in owned
    case Bundle(name, executable, bundleId, teamId) =>
      && macos
      && CheckPath(name) && CheckPath(executable)
      && '/' !in name && EndsWith(name, ".app")
      && a.kind == MacBundle
      && StartsWith(executable, name + "/Contents/MacOS/")
      && (forall i | 0 <= i < |a.files| :: StartsWith(a.files[i].path, name + "/"))
      && Received(a, executable)
      && SigningIdentity(bundleId) && SigningIdentity(teamId)
  }

  predicate ValidPolicy(policy: InstallPolicy, a: Artifact, macos: bool) {
    && 1 <= policy.exitTimeoutSecs <= MAX_TIMEOUT_SECS
    && 1 <= policy.confirmationTimeoutSecs <= MAX_TIMEOUT_SECS
    && ValidLayout(policy.layout, a, macos)
  }

  /** Accepts exactly the artifacts the policy allows. */
  method Validate(policy: InstallPolicy, a: Artifact, macos: bool) returns (r: Result<()>)
    ensures r.Success? <==> ValidPolicy(policy, a, macos)
  {
    if !(1 <= policy.exitTimeoutSecs <= MAX_TIMEOUT_SECS && 1 <= policy.confirmationTimeoutSecs <= MAX_TIMEOUT_SECS) {
      return Failure(Invalid);
    }
    if policy.layout.Portable? {
      r := ValidatePortable(policy.layout, a, macos);
      return;
    }
    var Bundle(name, executable, bundleId, teamId) := policy.layout;
    if !macos { return Failure(Invalid); }
    if !CheckPath(name) || !CheckPath(executable) { return Failure(UnsafePath); }
    if || '/' in name || !EndsWith(name, ".app") || a.kind != MacBundle
       || !StartsWith(executable, name + "/Contents/MacOS/")
       || !(forall i | 0 <= i < |a.files| :: StartsWith(a.files[i].path, name + "/")) || !Received(a, executable)
    { return Failure(Invalid); }
    if !SigningIdentity(bundleId) || !SigningIdentity(teamId) { return Failure(Invalid); }
    return Success(());
  }

  method ValidatePortable(layout: InstallLayout, a: Artifact, macos: bool) returns (r: Result<()>)
    requires layout.Portable?
    ensures r.Success? <==> ValidLayout(layout, a, macos)
  {
    var Portable(ownedFiles, executable, expandable) := layout;
    if a.kind != Files { return Failure(Invalid); }
    var collected := CollectOwned(ownedFiles);
    if collected.Failure? { return Failure(collected.error); }
    var owned := collected.value;
    var i := 0;
    while i < |expandable|
      invariant 0 <= i <= |expandable|
      invariant forall k | 0 <= k < i :: CheckPath(expandable[k])
    {
      if !CheckPath(expandable[i]) { return Failure(UnsafePath); }
      i := i + 1;
    }
    var received := set k | 0 <= k < |a.files| :: a.files[k].path;
    InventoryAdmitted(layout, a, owned, received);
    if |owned| != |ownedFiles| || !(owned <= received)
       || (exists path | path in received - owned :: !Expanded(layout, path))
       || executable !in owned
    { return Failure(Invalid); }
    return Success(());
  }

  lemma OneMoreDistinct(s: seq<string>, i: nat, seen: set<string>)
    requires i < |s| && seen == (set k | 0 <= k < i :: s[k]) && |seen| <= i
    requires |seen| == i <==> forall j, k | 0 <= j < k < i :: s[j] != s[k]
    ensures |seen + {s[i]}| <= i + 1
    ensures |seen + {s[i]}| == i + 1 <==> forall j, k | 0 <= j < k < i + 1 :: s[j] != s[k]
  {
    if s[i] in seen { assert seen + {s[i]} == seen; }
  }

  /** The owned paths as a set; its size tells whether they were distinct. */
  method CollectOwned(ownedFiles: seq<string>) returns (r: Result<set<string>>)
    ensures r.Success? <==> forall k | 0 <= k < |ownedFiles| :: CheckPath(ownedFiles[k])
    ensures r.Success? ==> r.value == set k | 0 <= k < |ownedFiles| :: ownedFiles[k]
    ensures r.Success? ==>
              (|r.value| == |ownedFiles| <==> forall j, k | 0 <= j < k < |ownedFiles| :: ownedFiles[j] != ownedFiles[k])
  {
    hide CheckPath;
    var owned: set<string> := {};
    var i := 0;
    while i < |ownedFiles|
      invariant 0 <= i <= |ownedFiles|
      invariant forall k | 0 <= k < i :: CheckPath(ownedFiles[k])
      invariant owned == set k | 0 <= k < i :: ownedFiles[k]
      invariant |owned| <= i
      invariant |owned| == i <==> forall j, k | 0 <= j < k < i :: ownedFiles[j] != ownedFiles[k]
    {
      if !CheckPath(ownedFiles[i]) { return Failure(UnsafePath); }
      OneMoreDistinct(ownedFiles, i, owned);
      owned := owned + {ownedFiles[i]};
      i := i + 1;
    }
    return Success(owned);
  }

  /** The set tests of the policy say what `ValidLayout` says file by file. */
  lemma InventoryAdmitted(layout: InstallLayout, a: Artifact, owned: set<string>, received: set<string>)
    requires layout.Portable?
    requires owned == set k | 0 <= k < |layout.ownedFiles| :: layout.ownedFiles[k]
    requires received == set k | 0 <= k < |a.files| :: a.files[k].path
    ensures owned <= received <==> forall k | 0 <= k < |layout.ownedFiles| :: Received(a, layout.ownedFiles[k])
    ensures (forall path | path in received - owned :: Expanded(layout, path))
            <==> forall k | 0 <= k < |a.files| :: Admitted(layout, a.files[k].path)
  {
    assert forall p :: p in received <==> Received(a, p);
    if owned <= received {
      forall k | 0 <= k < |layout.ownedFiles|
        ensures Received(a, layout.ownedFiles[k])
      { assert layout.ownedFiles[k] in owned; }
    }
    if forall path | path in received - owned :: Expanded(layout, path) {
      forall k | 0 <= k < |a.files| ensures Admitted(layout, a.files[k].path) {
        if a.files[k].path !in owned { assert a.files[k].path in received - owned; }
      }
    }
    if forall k | 0 <= k < |a.files| :: Admitted(layout, a.files[k].path) {
      forall path | path in received - owned ensures Expanded(layout, path) {
        var k :| 0 <= k < |a.files| && a.files[k].path == path;
        assert Admitted(layout, a.files[k].path);
      }
    }
  }

  // ---------------------------------------------------------------------------
  // What is accepted, in plain terms

  lemma ExpandedIff(layout: InstallLayout, path: string)
    requires layout.Portable?
    ensures Expanded(layout, path) <==> exists d, rest :: d in layout.expandableDirectories && path == d + "/" + rest
  {
    if Expanded(layout, path) {
      var i :| 0 <= i < |layout.expandableDirectories| && SlashAncestor(layout.expandableDirectories[i], path);
      var d := layout.expandableDirectories[i];
      assert path == d + "/" + path[|d| + 1..];
    }
    if d, rest :| d in layout.expandableDirectories && path == d + "/" + rest {
      var i :| 0 <= i < |layout.expandableDirectories| && layout.expandableDirectories[i] == d;
      assert SlashAncestor(d, path);
    }
  }

  lemma StartsWithIff(s: string, prefix: string)
    ensures StartsWith(s, prefix) <==> exists rest :: s == prefix + rest
  {
    if StartsWith(s, prefix) { assert s == prefix + s[|prefix|..]; }
  }

  lemma EndsWithIff(s: string, suffix: string)
    ensures EndsWith(s, suffix) <==> exists front :: s == front + suffix
  {
    if EndsWith(s, suffix) { assert s == s[..|s| - |suffix|] + suffix; }
  }

  predicate IdentityChar(c: char) {
    || c in "0123456789" || c in "ABCDEFGHIJKLM" || c in "NOPQRSTUVWXYZ"
    || c in "abcdefghijklm" || c in "nopqrstuvwxyz" || c == '.' || c == '-'
  }

  lemma DigitIff(c: char)
    ensures c in "0123456789" <==> '0' <= c <= '9'
  {
    if '0' <= c <= '9' { assert "0123456789"[c as int - '0' as int] == c; }
  }

  lemma CapitalIff(c: char)
    ensures c in "ABCDEFGHIJKLM" || c in "NOPQRSTUVWXYZ" <==> 'A' <= c <= 'Z'
  {
    if 'A' <= c <= 'M' { assert "ABCDEFGHIJKLM"[c as int - 'A' as int] == c; }
    if 'N' <= c <= 'Z' { assert "NOPQRSTUVWXYZ"[c as int - 'N' as int] == c; }
  }

  lemma SmallIff(c: char)
    ensures c in "abcdefghijklm" || c in "nopqrstuvwxyz" <==> 'a' <= c <= 'z'
  {
    if 'a' <= c <= 'm' { assert "abcdefghijklm"[c as int - 'a' as int] == c; }
    if 'n' <= c <= 'z' { assert "nopqrstuvwxyz"[c as int - 'n' as int] == c; }
  }

  lemma SigningIdentityIff(value: string)
    ensures SigningIdentity(value) <==> |value| > 0 && forall c | c in value :: IdentityChar(c)
  {
    forall i | 0 <= i < |value| ensures IdentityChar(value[i]) <==>
      || 'a' <= value[i] <= 'z' || 'A' <= value[i] <= 'Z' || '0' <= value[i] <= '9' || value[i] in {'.', '-'}
    {
      DigitIff(value[i]);
      CapitalIff(value[i]);
      SmallIff(value[i]);
    }
  }

  lemma ReceivedIff(a: Artifact, path: string)
    ensures Received(a, path) <==> exists f :: f in a.files && f.path == path
  {
  }

  /** Which policies fit a portable package: every owned file is received, once; what else is
      received lies strictly beneath an expandable directory; the executable is owned. */
  lemma ValidPortableIff(policy: InstallPolicy, a: Artifact, macos: bool)
    requires policy.layout.Portable?
    ensures var Portable(owned, executable, expandable) := policy.layout;
            ValidPolicy(policy, a, macos) <==>
              && 0 < policy.exitTimeoutSecs <= 3600 && 0 < policy.confirmationTimeoutSecs <= 3600
              && a.kind == PackageKind.Files
              && (forall k | 0 <= k < |owned| :: CheckPath(owned[k]))
              && (forall k | 0 <= k < |expandable| :: CheckPath(expandable[k]))
              && (forall i, k | 0 <= i < k < |owned| :: owned[i] != owned[k])
              && (forall k | 0 <= k < |owned| :: exists f :: f in a.files && f.path == owned[k])
              && (forall k | 0 <= k < |a.files| && a.files[k].path !in owned ::
                    exists d, rest :: d in expandable && a.files[k].path == d + "/" + rest)
              && executable in owned
  {
    var Portable(owned, _, expandable) := policy.layout;
    forall k | 0 <= k < |a.files|
      ensures Expanded(policy.layout, a.files[k].path) <==>
                exists d, rest :: d in expandable && a.files[k].path == d + "/" + rest
    { ExpandedIff(policy.layout, a.files[k].path); }
    forall k | 0 <= k < |owned|
      ensures Received(a, owned[k]) <==> exists f :: f in a.files && f.path == owned[k]
    { ReceivedIff(a, owned[k]); }
    hide CheckPath, Received, Expanded;
  }

  /** Which policies fit a bundle. */
  lemma ValidBundleIff(policy: InstallPolicy, a: Artifact, macos: bool)
    requires policy.layout.Bundle?
    ensures var Bundle(name, executable, bundleId, teamId) := policy.layout;
            ValidPolicy(policy, a, macos) <==>
              && 0 < policy.exitTimeoutSecs <= 3600 && 0 < policy.confirmationTimeoutSecs <= 3600
              && macos && a.kind == MacBundle
              && CheckPath(name) && CheckPath(executable)
              && '/' !in name && (exists front :: name == front + ".app")
              && (exists rest :: executable == name + "/Contents/MacOS/" + rest)
              && (forall k | 0 <= k < |a.files| :: exists rest :: a.files[k].path == name + "/" + rest)
              && (exists f :: f in a.files && f.path == executable)
              && |bundleId| > 0 && (forall c | c in bundleId :: IdentityChar(c))
              && |teamId| > 0 && (forall c | c in teamId :: IdentityChar(c))
  {
    var Bundle(name, executable, bundleId, teamId) := policy.layout;
    EndsWithIff(name, ".app");
    StartsWithIff(executable, name + "/Contents/MacOS/");
    forall k | 0 <= k < |a.files|
      ensures StartsWith(a.files[k].path, name + "/") <==> exists rest :: a.files[k].path == name + "/" + rest
    { StartsWithIff(a.files[k].path, name + "/"); }
    SigningIdentityIff(bundleId);
    SigningIdentityIff(teamId);
    ReceivedIff(a, executable);
    hide CheckPath, Received, StartsWith, EndsWith, SigningIdentity, IdentityChar;
  }

  // ---------------------------------------------------------------------------

  /** `items` applied to a verified artifact. */
  function PlanOf(policy: InstallPolicy, a: Artifact, digest: Bytes -> string): Plan {
    match policy.layout
    case Portable(_, _, _) =>
      Plan(false, seq(|a.files|, i requires 0 <= i < |a.files| => FilePath(a.files[i])), a.files, digest)
    case Bundle(name, _, _, _) => Plan(true, [Split(name)], a.files, digest)
  }

  /** Validation of the manifest and of the policy is what the transaction's proofs rest on: items
      lie apart from each other, so restoring or replacing one cannot disturb another. */
  lemma ValidPlanIsWellFormed(policy: InstallPolicy, a: Artifact, macos: bool, digest: Bytes -> string)
    requires ValidArtifact(a) && ValidPolicy(policy, a, macos)
    ensures WellFormed(PlanOf(policy, a, digest))
  {
    var plan := PlanOf(policy, a, digest);
    match policy.layout
    case Portable(_, _, _) =>
      forall i, j | 0 <= i < |plan.items| && 0 <= j < |plan.items| && i != j
        ensures Apart(plan.items[i], plan.items[j])
      {
        InventoryApart(a.files, i, j);
      }
    case Bundle(name, _, _, _) =>
      forall i | 0 <= i < |a.files| ensures Split(name) < FilePath(a.files[i]) {
        var path := a.files[i].path;
        assert StartsWith(path, name + "/");
        assert path[..|name| + 1][|name|] == '/' && path[..|name| + 1][..|name|] == path[..|name|] == name;
        AncestorIffPrefix(name, path);
      }
  }

  lemma ItemIsAdmitted(policy: InstallPolicy, a: Artifact, macos: bool, digest: Bytes -> string, item: Path)
    returns (i: nat)
    requires ValidArtifact(a) && ValidPolicy(policy, a, macos) && policy.layout.Portable?
    requires item in PlanOf(policy, a, digest).items
    ensures i < |a.files| && FilePath(a.files[i]) == item && Admitted(policy.layout, a.files[i].path)
    ensures item != [] && Fold(item[0]) != STATE_DIRECTORY
  {
    var plan := PlanOf(policy, a, digest);
    i :| 0 <= i < |plan.items| && plan.items[i] == item;
    assert CheckPath(a.files[i].path) && Admitted(policy.layout, a.files[i].path);
    assert ValidPart(Split(a.files[i].path)[0]);
  }

  /** The frame, over all runs of the update of a portable installation, applied, undone or cut
      short: a changed regular file lies at or beneath a signed path that the host owns or that
      lies strictly beneath a directory the host named, never in the state directory in any
      letter case; and it is that very path unless a directory with files stands where `apply`
      puts a file. */
  lemma OnlyAdmittedFilesChange(policy: InstallPolicy, a: Artifact, macos: bool, digest: Bytes -> string,
                                pre: Tree, armed: Disk, d: Disk, q: Path)
    requires ValidArtifact(a) && ValidPolicy(policy, a, macos) && policy.layout.Portable?
    requires Start(PlanOf(policy, a, digest), pre, armed) && Reaches(PlanOf(policy, a, digest), armed, d)
    requires FileAt(d.live, q) != FileAt(pre, q)
    ensures exists i :: 0 <= i < |a.files| && FilePath(a.files[i]) <= q && Admitted(policy.layout, a.files[i].path)
    ensures q != [] && Fold(q[0]) != STATE_DIRECTORY
    ensures (forall k: nat :: !Exposed(PlanOf(policy, a, digest), pre, k)) ==>
              exists i :: 0 <= i < |a.files| && FilePath(a.files[i]) == q && Admitted(policy.layout, a.files[i].path)
  {
    var plan := PlanOf(policy, a, digest);
    StartInv(plan, pre, armed);
    ReachesKeepsInv(Anyone, plan, pre, armed, d);
    if forall item | item in ItemSet(plan) :: !(item <= q) { OtherFilesKept(pre, d.live, ItemSet(plan), q); }
    var item :| item in ItemSet(plan) && item <= q;
    var i := ItemIsAdmitted(policy, a, macos, digest, item);
    if forall k: nat :: !Exposed(plan, pre, k) {
      OnlyItemsChangeIff(plan, pre, armed);
      assert ItemsOnly(plan, pre, d.live);
      var j := ItemIsAdmitted(policy, a, macos, digest, q);
    }
  }

  /** Which paths an update replaces. */
  lemma ItemsOf(policy: InstallPolicy, a: Artifact, digest: Bytes -> string)
    ensures var plan := PlanOf(policy, a, digest);
            && plan.files == a.files && plan.digest == digest && (plan.bundle <==> policy.layout.Bundle?)
            && forall item :: item in plan.items <==>
                 if policy.layout.Bundle? then item != [] && Join(item) == policy.layout.bundleName && NoSlashes(item)
                 else exists f :: f in a.files && item != [] && Join(item) == f.path && NoSlashes(item)
  {
    var plan := PlanOf(policy, a, digest);
    forall item ensures item in plan.items <==>
      if policy.layout.Bundle? then item != [] && Join(item) == policy.layout.bundleName && NoSlashes(item)
      else exists f :: f in a.files && item != [] && Join(item) == f.path && NoSlashes(item)
    {
      if policy.layout.Bundle? {
        SplitIs(policy.layout.bundleName, item);
      } else {
        forall f | f in a.files
          ensures Split(f.path) == item <==> item != [] && Join(item) == f.path && NoSlashes(item)
        { SplitIs(f.path, item); }
        if item in plan.items {
          var i :| 0 <= i < |plan.items| && plan.items[i] == item;
          assert a.files[i] in a.files && item == Split(a.files[i].path);
        }
        if f :| f in a.files && item != [] && Join(item) == f.path && NoSlashes(item) {
          var i :| 0 <= i < |a.files| && a.files[i] == f;
          assert plan.items[i] == item;
        }
      }
    }
  }

  predicate NoSlashes(p: Path) { forall i | 0 <= i < |p| :: '/' !in p[i] }

  lemma SplitIs(s: string, p: Path)
    ensures Split(s) == p <==> p != [] && Join(p) == s && NoSlashes(p)
  {
    JoinOfSplit(s);
    SplitParts(s);
    if p != [] && NoSlashes(p) { SplitOfJoin(p); }
  }
}
