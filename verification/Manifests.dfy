/** src/manifest.rs: the release manifest and its validation. */
module Manifests {
  import opened Outcomes
  import opened Paths
  import opened Trees

  const MAX_FILES: int := 100_000
  type u64 = x: int | 0 <= x < 0x1_0000_0000_0000_0000

  datatype PackageKind = Files | MacBundle

  datatype PackageFile = PackageFile(path: string, sha256: string, size: u64, executable: bool)

  datatype Artifact = Artifact(target: string, kind: PackageKind, sha256: string, size: u64, files: seq<PackageFile>)

  datatype ReleaseManifest = ReleaseManifest(schema: int, product: string, channel: string, notes: string,
                                             artifacts: seq<Artifact>)

  predicate HexDigit(c: char) { '0' <= c <= '9' || 'a' <= c <= 'f' || 'A' <= c <= 'F' }

  predicate CheckHash(value: string) {
    |value| == 64 && forall i | 0 <= i < 64 :: HexDigit(value[i])
  }

  /** Ignoring letter case, file `i` is neither file `j` nor a directory above it. */
  predicate Coexist(files: seq<PackageFile>, i: int, j: int)
    requires 0 <= i < |files| && 0 <= j < |files|
  {
    Fold(files[i].path) != Fold(files[j].path) && !SlashAncestor(Fold(files[i].path), Fold(files[j].path))
  }

  /** What the two loops over an inventory enforce. */
  predicate ValidInventory(files: seq<PackageFile>) {
    && (forall i | 0 <= i < |files| :: CheckPath(files[i].path) && CheckHash(files[i].sha256))
    && (forall i, j | 0 <= i < |files| && 0 <= j < |files| && i != j :: Coexist(files, i, j))
  }

  /** The content is what the signed inventory says of `f`. */
  predicate Intact(f: PackageFile, data: Bytes, digest: Bytes -> string) {
    |data| == f.size && Fold(digest(data)) == Fold(f.sha256)
  }

  predicate ValidArtifact(a: Artifact) {
    && CheckHash(a.sha256)
    && a.size != 0
    && 0 < |a.files| <= MAX_FILES
    && ValidInventory(a.files)
  }

  predicate ValidManifest(m: ReleaseManifest) {
    && m.schema == 1 && m.product != "" && m.channel != ""
    && (forall i | 0 <= i < |m.artifacts| :: m.artifacts[i].target != "" && ValidArtifact(m.artifacts[i]))
    && (forall i, j | 0 <= i < j < |m.artifacts| :: m.artifacts[i].target != m.artifacts[j].target)
  }

  /** The left part of `rsplit_once('/')`. */
  function BeforeLastSlash(s: string): (prefix: Option<string>)
    ensures prefix == None ==> '/' !in s
    ensures prefix.Some? ==> SlashAncestor(prefix.value, s) && '/' !in s[|prefix.value| + 1..]
    decreases |s|
  {
    if s == "" then None
    else if s[|s| - 1] == '/' then Some(s[..|s| - 1])
    else
      assert s == s[..|s| - 1] + [s[|s| - 1]];
      BeforeLastSlash(s[..|s| - 1])
  }

  /** The walk up from one folded path, testing every proper ancestor by shrinking `parent`. */
  method HasAncestorIn(path: string, paths: set<string>) returns (found: bool)
    ensures found <==> exists a :: SlashAncestor(a, path) && a in paths
  {
    var parent := path;
    while true
      invariant parent == path || SlashAncestor(parent, path)
      invariant forall a | SlashAncestor(a, path) && |a| >= |parent| :: a !in paths
      decreases |parent|
    {
      match BeforeLastSlash(parent)
      case None =>
        AncestorsAlign(parent, path);
        NoSlashNoAncestor(parent);
        return false;
      case Some(prefix) =>
        LastAncestor(prefix, parent, path);
        if prefix in paths { return true; }
        parent := prefix;
    }
  }

  lemma AncestorsAlign(parent: string, path: string)
    requires parent == path || SlashAncestor(parent, path)
    ensures forall a | SlashAncestor(a, path) :: |a| >= |parent| || SlashAncestor(a, parent)
  {
  }

  lemma NoSlashNoAncestor(s: string)
    requires '/' !in s
    ensures forall a :: !SlashAncestor(a, s)
  {
  }

  /** Between a path and what is left of its last slash there is no other ancestor. */
  lemma LastAncestor(prefix: string, parent: string, path: string)
    requires parent == path || SlashAncestor(parent, path)
    requires SlashAncestor(prefix, parent) && '/' !in parent[|prefix| + 1..]
    ensures SlashAncestor(prefix, path)
    ensures forall a | SlashAncestor(a, path) && |a| >= |prefix| :: a == prefix || |a| >= |parent|
  {
    forall k | |prefix| < k < |parent| ensures parent[k] != '/' {
      assert parent[k] == parent[|prefix| + 1..][k - |prefix| - 1];
    }
    forall a | SlashAncestor(a, path) && |a| == |prefix| ensures a == prefix {
      assert a == path[..|a|] == prefix;
    }
  }

  /** The loop over the files: grammar, hash syntax and distinctness ignoring case. */
  method CollectFolds(files: seq<PackageFile>) returns (r: Result<set<string>>)
    ensures r.Success? <==>
              && (forall k | 0 <= k < |files| :: CheckPath(files[k].path) && CheckHash(files[k].sha256))
              && (forall j, k | 0 <= j < k < |files| :: Fold(files[j].path) != Fold(files[k].path))
    ensures r.Success? ==> r.value == set k | 0 <= k < |files| :: Fold(files[k].path)
  {
    var paths: set<string> := {};
    var i := 0;
    while i < |files|
      invariant 0 <= i <= |files|
      invariant paths == set k | 0 <= k < i :: Fold(files[k].path)
      invariant forall k | 0 <= k < i :: CheckPath(files[k].path) && CheckHash(files[k].sha256)
      invariant forall j, k | 0 <= j < k < i :: Fold(files[j].path) != Fold(files[k].path)
    {
      if !CheckPath(files[i].path) { return Failure(UnsafePath); }
      if !CheckHash(files[i].sha256) { return Failure(Invalid); }
      if Fold(files[i].path) in paths { return Failure(Invalid); }
      paths := paths + {Fold(files[i].path)};
      i := i + 1;
    }
    return Success(paths);
  }

  /** The loop over the folded paths: none has another above it. */
  method FindAncestor(paths: set<string>) returns (found: bool)
    ensures found <==> exists a, p :: a in paths && p in paths && SlashAncestor(a, p)
  {
    var todo := paths;
    while todo != {}
      invariant todo <= paths
      invariant forall a, p | p in paths - todo && SlashAncestor(a, p) :: a !in paths
      decreases todo
    {
      var path :| path in todo;
      found := HasAncestorIn(path, paths);
      if found { return; }
      todo := todo - {path};
    }
    return false;
  }

  /** Accepts exactly the inventories whose paths follow the grammar and, ignoring case, are
      pairwise distinct with none above another. */
  method ValidateInventory(files: seq<PackageFile>) returns (r: Result<()>)
    ensures r.Success? <==> ValidInventory(files)
  {
    var collected := CollectFolds(files);
    if collected.Failure? {
      FoldsDistinct(files);
      return Failure(collected.error);
    }
    var clash := FindAncestor(collected.value);
    AncestorsAmong(files, collected.value);
    FoldsDistinct(files);
    if clash { return Failure(Invalid); }
    return Success(());
  }

  lemma FoldsDistinct(files: seq<PackageFile>)
    ensures ValidInventory(files) ==> forall j, k | 0 <= j < k < |files| :: Fold(files[j].path) != Fold(files[k].path)
  {
    if ValidInventory(files) {
      forall j, k | 0 <= j < k < |files|
        ensures Fold(files[j].path) != Fold(files[k].path)
      { assert Coexist(files, j, k); }
    }
  }

  lemma AncestorsAmong(files: seq<PackageFile>, paths: set<string>)
    requires paths == set k | 0 <= k < |files| :: Fold(files[k].path)
    requires forall j, k | 0 <= j < k < |files| :: Fold(files[j].path) != Fold(files[k].path)
    ensures (exists a, p :: a in paths && p in paths && SlashAncestor(a, p))
            <==> exists j, k :: 0 <= j < |files| && 0 <= k < |files| && j != k && !Coexist(files, j, k)
  {
    if a, p :| a in paths && p in paths && SlashAncestor(a, p) {
      var j :| 0 <= j < |files| && Fold(files[j].path) == a;
      var k :| 0 <= k < |files| && Fold(files[k].path) == p;
      assert !Coexist(files, j, k);
    }
    if j, k :| 0 <= j < |files| && 0 <= k < |files| && j != k && !Coexist(files, j, k) {
      var a, p := Fold(files[j].path), Fold(files[k].path);
      if j < k { assert a != p; } else { assert p != a; }
      assert a in paths && p in paths && SlashAncestor(a, p);
    }
  }

  /** Accepts exactly the valid manifests. */
  method Validate(m: ReleaseManifest) returns (r: Result<()>)
    ensures r.Success? <==> ValidManifest(m)
  {
    if m.schema != 1 || m.product == "" || m.channel == "" { return Failure(Invalid); }
    var targets: set<string> := {};
    var i := 0;
    while i < |m.artifacts|
      invariant 0 <= i <= |m.artifacts|
      invariant targets == set k | 0 <= k < i :: m.artifacts[k].target
      invariant forall k | 0 <= k < i :: m.artifacts[k].target != "" && ValidArtifact(m.artifacts[k])
      invariant forall j, k | 0 <= j < k < i :: m.artifacts[j].target != m.artifacts[k].target
    {
      var a := m.artifacts[i];
      if a.target == "" || a.target in targets { return Failure(Invalid); }
      targets := targets + {a.target};
      if !CheckHash(a.sha256) { return Failure(Invalid); }
      if a.size == 0 || a.files == [] || |a.files| > MAX_FILES { return Failure(Invalid); }
      var inventory := ValidateInventory(a.files);
      if inventory.Failure? { return inventory; }
      i := i + 1;
    }
    return Success(());
  }

  // ---------------------------------------------------------------------------
  // What a valid inventory is for

  function FilePath(f: PackageFile): Path { Split(f.path) }

  /** Distinct declared files are written to paths apart from each other, also on a file system
      that ignores letter case. */
  lemma InventoryApart(files: seq<PackageFile>, i: int, j: int)
    requires ValidInventory(files) && 0 <= i < |files| && 0 <= j < |files| && i != j
    ensures Apart(Split(Fold(files[i].path)), Split(Fold(files[j].path)))
    ensures Apart(FilePath(files[i]), FilePath(files[j]))
  {
    assert Coexist(files, i, j) && Coexist(files, j, i);
    FoldedPrefix(files[i].path, files[j].path);
    FoldedPrefix(files[j].path, files[i].path);
  }

  lemma FoldedPrefix(a: string, b: string)
    requires Fold(a) != Fold(b) && !SlashAncestor(Fold(a), Fold(b))
    ensures !(Split(Fold(a)) <= Split(Fold(b)))
    ensures !(Split(a) <= Split(b))
  {
    AncestorIffPrefix(Fold(a), Fold(b));
    if Split(Fold(a)) == Split(Fold(b)) { SplitInjective(Fold(a), Fold(b)); }
    FoldSplit(a);
    FoldSplit(b);
    if Split(a) <= Split(b) { PrefixFolds(Split(a), Split(b), Split(Fold(a)), Split(Fold(b))); }
  }

  lemma PrefixFolds(x: seq<string>, y: seq<string>, fx: seq<string>, fy: seq<string>)
    requires x <= y && FoldsTo(x, fx) && FoldsTo(y, fy)
    ensures fx <= fy
  {
  }

  // ---------------------------------------------------------------------------
  // What is accepted, in plain terms

  /** The same text but for the case of letters. */
  predicate SameButCase(s: string, t: string) {
    |s| == |t| && forall i | 0 <= i < |s| ::
      || s[i] == t[i]
      || ('a' <= s[i] <= 'z' && s[i] as int - 32 == t[i] as int)
      || ('A' <= s[i] <= 'Z' && s[i] as int + 32 == t[i] as int)
  }

  lemma FoldsAgree(s: string, t: string)
    ensures Fold(s) == Fold(t) <==> SameButCase(s, t)
  {
    if Fold(s) == Fold(t) {
      assert |s| == |Fold(s)| == |Fold(t)| == |t|;
      forall i | 0 <= i < |s| ensures LowerChar(s[i]) == LowerChar(t[i]) {
        assert Fold(s)[i] == LowerChar(s[i]) && Fold(t)[i] == LowerChar(t[i]);
      }
    }
  }

  /** Content is genuine exactly if it has the signed length and its digest is the signed one but
      for the case of letters. */
  lemma IntactIff(f: PackageFile, data: Bytes, digest: Bytes -> string)
    ensures Intact(f, data, digest) <==> |data| == f.size && SameButCase(digest(data), f.sha256)
  {
    FoldsAgree(digest(data), f.sha256);
  }

  /** Two files coexist, whichever comes first, exactly if neither path leads to or through the
      other, ignoring case. */
  lemma CoexistIff(files: seq<PackageFile>, i: int, j: int)
    requires 0 <= i < |files| && 0 <= j < |files|
    ensures Coexist(files, i, j) && Coexist(files, j, i)
            <==> Apart(Split(Fold(files[i].path)), Split(Fold(files[j].path)))
  {
    var a, b := Fold(files[i].path), Fold(files[j].path);
    AncestorIffPrefix(a, b);
    AncestorIffPrefix(b, a);
    if Split(a) == Split(b) { SplitInjective(a, b); }
    if Split(a) <= Split(b) && Split(a) != Split(b) { assert Split(a) < Split(b); }
    if Split(b) <= Split(a) && Split(a) != Split(b) { assert Split(b) < Split(a); }
  }

  const HEX: string := "0123456789abcdefABCDEF"

  lemma HexDigits(c: char)
    ensures HexDigit(c) <==> c in HEX
  {
    if '0' <= c <= '9' { assert HEX[c as int - '0' as int] == c; }
    if 'a' <= c <= 'f' { assert HEX[10 + c as int - 'a' as int] == c; }
    if 'A' <= c <= 'F' { assert HEX[16 + c as int - 'A' as int] == c; }
  }

  lemma CheckHashIff(value: string)
    ensures CheckHash(value) <==> |value| == 64 && forall c | c in value :: c in HEX
  {
    forall i | 0 <= i < |value| ensures HexDigit(value[i]) <==> value[i] in HEX { HexDigits(value[i]); }
  }

  lemma ValidInventoryIff(files: seq<PackageFile>)
    ensures ValidInventory(files) <==>
              && (forall f | f in files ::
                    CheckPath(f.path) && |f.sha256| == 64 && forall c | c in f.sha256 :: c in HEX)
              && (forall i, j | 0 <= i < j < |files| ::
                    Apart(Split(Fold(files[i].path)), Split(Fold(files[j].path))))
  {
    forall f | f in files
      ensures CheckHash(f.sha256) <==> |f.sha256| == 64 && forall c | c in f.sha256 :: c in HEX
    { CheckHashIff(f.sha256); }
    forall i, j | 0 <= i < |files| && 0 <= j < |files|
      ensures Coexist(files, i, j) && Coexist(files, j, i)
              <==> Apart(Split(Fold(files[i].path)), Split(Fold(files[j].path)))
    { CoexistIff(files, i, j); }
  }

  /** Which manifests are accepted. */
  lemma ValidManifestIff(m: ReleaseManifest)
    ensures ValidManifest(m) <==>
              && m.schema == 1 && |m.product| > 0 && |m.channel| > 0
              && (forall a | a in m.artifacts ::
                    && |a.target| > 0 && |a.sha256| == 64 && (forall c | c in a.sha256 :: c in HEX)
                    && a.size > 0 && 1 <= |a.files| <= 100_000 && ValidInventory(a.files))
              && (forall i, j | 0 <= i < |m.artifacts| && 0 <= j < |m.artifacts| && i != j ::
                    m.artifacts[i].target != m.artifacts[j].target)
  {
    forall a | a in m.artifacts
      ensures CheckHash(a.sha256) <==> |a.sha256| == 64 && forall c | c in a.sha256 :: c in HEX
    { CheckHashIff(a.sha256); }
  }
}
