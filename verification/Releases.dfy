/** The `pack` command of src/bin/release.rs: from a directory to a package and its manifest. */
module Releases {
  import opened Outcomes
  import opened Paths
  import opened Trees
  import opened FileStores
  import opened Manifests
  import opened Inventories
  import opened Archives
  import opened SafeJoins

  function RegularAt(n: Node, p: Path): Option<Tree> {
    match Lexical(n, p)
    case Some(Plain(bytes, executable)) => Some(File(bytes, executable))
    case _ => None
  }

  /** No link and no special file anywhere. */
  predicate Ordinary(n: Node) {
    match n
    case Plain(_, _) => true
    case Folder(entries) => forall k | k in entries :: Ordinary(entries[k])
    case Link(_) => false
    case Special => false
  }

  /** What the operating system guarantees of names. */
  predicate Named(n: Node) {
    n.Folder? ==> forall k | k in n.entries :: k != "" && '/' !in k && Named(n.entries[k])
  }

  /** `replace('\\', "/")`. */
  function Slashed(s: string): string { seq(|s|, i requires 0 <= i < |s| => if s[i] == '\\' then '/' else s[i]) }

  lemma SlashedMeans(s: string)
    ensures |Slashed(s)| == |s| && '\\' !in Slashed(s)
    ensures forall i | 0 <= i < |s| :: Slashed(s)[i] != s[i] ==> s[i] == '\\' && Slashed(s)[i] == '/'
  {
  }

  /** The name under which the file at `p` is collected. */
  function Name(p: Path): string
    requires p != []
  {
    Slashed(Join(p))
  }

  predicate Beneath(folder: Node, prefix: Path, p: Path) {
    prefix < p && RegularAt(folder, p[|prefix|..]).Some?
  }

  /** `froms` lists the regular files of `folder` once each, with `prefix` in front. */
  ghost predicate Lists(froms: seq<Path>, folder: Node, prefix: Path) {
    NoRepeat(froms) && forall p :: p in froms <==> Beneath(folder, prefix, p)
  }

  ghost predicate ListsSome(froms: seq<Path>, folder: Node, prefix: Path, done: set<string>)
    requires folder.Folder?
  {
    && NoRepeat(froms)
    && (forall p | p in froms :: Beneath(folder, prefix, p) && p[|prefix|] in done)
    && (forall p | Beneath(folder, prefix, p) && p[|prefix|] in done :: p in froms)
  }

  function Names(froms: seq<Path>): seq<string>
    requires forall i | 0 <= i < |froms| :: froms[i] != []
  {
    seq(|froms|, i requires 0 <= i < |froms| => Name(froms[i]))
  }

  lemma OneStep(folder: Node, prefix: Path, k: string)
    requires folder.Folder? && k in folder.entries
    ensures Lexical(folder, (prefix + [k])[|prefix|..]) == Some(folder.entries[k])
  {
    var rest := (prefix + [k])[|prefix|..];
    assert rest == [k] && rest[1..] == [];
    assert Lexical(folder.entries[k], rest[1..]) == Some(folder.entries[k]);
  }

  lemma BeneathChild(folder: Node, prefix: Path, k: string, p: Path)
    requires folder.Folder? && k in folder.entries && folder.entries[k].Folder?
    ensures Beneath(folder.entries[k], prefix + [k], p) <==> Beneath(folder, prefix, p) && p[|prefix|] == k
  {
    if prefix + [k] <= p {
      assert p[|prefix|] == (prefix + [k])[|prefix|] == k;
      assert p[|prefix|..][1..] == p[|prefix + [k]|..];
      if p == prefix + [k] { assert p[|prefix + [k]|..] == []; }
    }
    if prefix < p && p[|prefix|] == k {
      assert prefix + [k] <= p;
      assert p[|prefix|..][1..] == p[|prefix + [k]|..] && p[|prefix|..][0] == k;
      if p == prefix + [k] { OneStep(folder, prefix, k); }
    }
  }

  lemma BeneathAsFile(folder: Node, prefix: Path, k: string, p: Path)
    requires folder.Folder? && k in folder.entries && !folder.entries[k].Folder?
    ensures Beneath(folder, prefix, p) && p[|prefix|] == k <==> folder.entries[k].Plain? && p == prefix + [k]
  {
    if prefix < p && p[|prefix|] == k {
      assert p == prefix + p[|prefix|..];
      if |p| > |prefix| + 1 {
        assert p[|prefix|..][0] == k && p[|prefix|..][1..] != [];
        assert Lexical(folder, p[|prefix|..]) == None;
      } else {
        assert p == prefix + [k];
      }
    }
    if p == prefix + [k] {
      OneStep(folder, prefix, k);
    }
  }

  lemma ListsMore(froms: seq<Path>, more: seq<Path>, folder: Node, prefix: Path, done: set<string>, k: string)
    requires folder.Folder? && k in folder.entries && k !in done && ListsSome(froms, folder, prefix, done)
    requires NoRepeat(more) && forall p :: p in more <==> Beneath(folder, prefix, p) && p[|prefix|] == k
    ensures ListsSome(froms + more, folder, prefix, done + {k})
  {
    forall i, j | 0 <= i < |froms| && 0 <= j < |more| ensures froms[i] != more[j] {
      assert froms[i] in froms && more[j] in more;
    }
  }

  lemma AllListed(froms: seq<Path>, folder: Node, prefix: Path)
    requires folder.Folder? && ListsSome(froms, folder, prefix, folder.entries.Keys)
    ensures Lists(froms, folder, prefix)
  {
    forall p | Beneath(folder, prefix, p) ensures p[|prefix|] in folder.entries.Keys {
      assert p[|prefix|..][0] == p[|prefix|];
    }
  }

  /** `collect_files`: every regular file beneath `folder` once, unless something there is neither
      a regular file nor a directory. */
  method CollectFiles(folder: Node, prefix: Path, paths: seq<string>)
    returns (r: Result<seq<string>>, ghost froms: seq<Path>)
    requires folder.Folder?
    ensures r.Success? <==> Ordinary(folder)
    ensures forall i | 0 <= i < |froms| :: froms[i] != []
    ensures r.Success? ==> Lists(froms, folder, prefix) && r.value == paths + Names(froms)
    decreases folder, 1
  {
    froms := [];
    var collected := paths;
    var todo := folder.entries.Keys;
    while todo != {}
      invariant todo <= folder.entries.Keys
      invariant forall k | k in folder.entries.Keys - todo :: Ordinary(folder.entries[k])
      invariant ListsSome(froms, folder, prefix, folder.entries.Keys - todo)
      invariant forall i | 0 <= i < |froms| :: froms[i] != []
      invariant collected == paths + Names(froms)
      decreases todo
    {
      var k :| k in todo;
      var beneath; ghost var more;
      beneath, more := CollectEntry(folder, prefix, k, collected);
      if beneath.Failure? { return beneath, []; }
      collected := beneath.value;
      ListsMore(froms, more, folder, prefix, folder.entries.Keys - todo, k);
      assert folder.entries.Keys - todo + {k} == folder.entries.Keys - (todo - {k});
      assert Names(froms + more) == Names(froms) + Names(more);
      froms := froms + more;
      todo := todo - {k};
    }
    AllListed(froms, folder, prefix);
    return Success(collected), froms;
  }

  /** One entry of the directory listing. */
  method CollectEntry(folder: Node, prefix: Path, k: string, paths: seq<string>)
    returns (r: Result<seq<string>>, ghost more: seq<Path>)
    requires folder.Folder? && k in folder.entries
    ensures r.Success? <==> Ordinary(folder.entries[k])
    ensures forall i | 0 <= i < |more| :: more[i] != []
    ensures r.Success? ==> NoRepeat(more) && forall p :: p in more <==> Beneath(folder, prefix, p) && p[|prefix|] == k
    ensures r.Success? ==> r.value == paths + Names(more)
    decreases folder, 0
  {
    more := [];
    match folder.entries[k]
    case Link(_) => return Failure(Invalid), [];
    case Special => return Failure(Invalid), [];
    case Folder(_) =>
      r, more := CollectFiles(folder.entries[k], prefix + [k], paths);
      forall p ensures Beneath(folder.entries[k], prefix + [k], p) <==> Beneath(folder, prefix, p) && p[|prefix|] == k {
        BeneathChild(folder, prefix, k, p);
      }
    case Plain(_, _) =>
      more := [prefix + [k]];
      r := Success(paths + [Name(prefix + [k])]);
      forall p
        ensures p in more <==> Beneath(folder, prefix, p) && p[|prefix|] == k
      { BeneathAsFile(folder, prefix, k, p); }
  }

  // ---------------------------------------------------------------------------
  // Sorting

  /** The order of strings: by characters, a prefix first. */
  predicate AtMost(a: string, b: string) {
    a == "" || (b != "" && (a[0] < b[0] || (a[0] == b[0] && AtMost(a[1..], b[1..]))))
  }

  predicate Sorted(s: seq<string>) { forall i, j | 0 <= i < j < |s| :: AtMost(s[i], s[j]) }

  lemma {:induction false} AtMostTotal(a: string, b: string)
    ensures AtMost(a, b) || AtMost(b, a)
    ensures AtMost(a, b) && AtMost(b, a) ==> a == b
  {
    if a == "" || b == "" {
    } else {
      AtMostTotal(a[1..], b[1..]);
      assert a == [a[0]] + a[1..] && b == [b[0]] + b[1..];
    }
  }

  lemma {:induction false} AtMostTrans(a: string, b: string, c: string)
    requires AtMost(a, b) && AtMost(b, c)
    ensures AtMost(a, c)
  {
    if a == "" || !(a[0] == b[0] == c[0]) {
    } else {
      AtMostTrans(a[1..], b[1..], c[1..]);
    }
  }

  lemma SortedFront(x: string, s: seq<string>)
    requires Sorted(s) && (s != [] ==> AtMost(x, s[0]))
    ensures Sorted([x] + s)
  {
    forall j | 0 <= j < |s| ensures AtMost(x, s[j]) { if j > 0 { AtMostTrans(x, s[0], s[j]); } }
  }

  lemma SortedRest(x: string, s: seq<string>, rest: seq<string>)
    requires Sorted(s) && s != [] && AtMost(s[0], x) && Sorted(rest) && multiset(rest) == multiset{x} + multiset(s[1..])
    ensures Sorted([s[0]] + rest)
  {
    forall j | 0 <= j < |rest| ensures AtMost(s[0], rest[j]) {
      assert rest[j] in multiset(rest);
      if rest[j] != x {
        var i :| 0 <= i < |s[1..]| && s[1..][i] == rest[j];
        assert s[i + 1] == rest[j];
      }
    }
  }

  function Insert(x: string, s: seq<string>): (r: seq<string>)
    requires Sorted(s)
    ensures multiset(r) == multiset{x} + multiset(s) && Sorted(r)
  {
    if s == [] then [x]
    else if AtMost(x, s[0]) then
      SortedFront(x, s);
      [x] + s
    else
      AtMostTotal(x, s[0]);
      assert s == [s[0]] + s[1..];
      SortedRest(x, s, Insert(x, s[1..]));
      [s[0]] + Insert(x, s[1..])
  }

  /** `paths.sort()`. */
  function Sort(s: seq<string>): (r: seq<string>)
    ensures multiset(r) == multiset(s) && Sorted(r)
  {
    if s == [] then []
    else
      assert s == [s[0]] + s[1..];
      Insert(s[0], Sort(s[1..]))
  }

  lemma FirstIsLeast(s: seq<string>, x: string)
    requires Sorted(s) && x in s
    ensures AtMost(s[0], x)
  {
    AtMostTotal(x, x);
    var i :| 0 <= i < |s| && s[i] == x;
  }

  /** There is one way to sort. */
  lemma {:induction false} SortedUnique(s: seq<string>, t: seq<string>)
    requires Sorted(s) && Sorted(t) && multiset(s) == multiset(t)
    ensures s == t
    decreases |s|
  {
    assert |multiset(s)| == |s| && |multiset(t)| == |t|;
    if s == [] {
    } else {
      SameFirst(s, t);
      assert s == [s[0]] + s[1..] && t == [t[0]] + t[1..];
      assert multiset(s[1..]) == multiset(s) - multiset{s[0]};
      assert multiset(t[1..]) == multiset(t) - multiset{t[0]};
      SortedUnique(s[1..], t[1..]);
    }
  }

  lemma SameFirst(s: seq<string>, t: seq<string>)
    requires Sorted(s) && Sorted(t) && multiset(s) == multiset(t) && s != [] && t != []
    ensures s[0] == t[0]
  {
    assert s[0] in multiset(t) && t[0] in multiset(s);
    FirstIsLeast(s, t[0]);
    FirstIsLeast(t, s[0]);
    AtMostTotal(s[0], t[0]);
  }

  /** Sorting neither introduces nor removes repetitions. */
  lemma SortRepeats(s: seq<string>)
    ensures NoRepeat(Sort(s)) <==> NoRepeat(s)
    ensures |Sort(s)| == |s| && forall x :: x in Sort(s) <==> x in s
  {
    var t := Sort(s);
    assert |multiset(t)| == |multiset(s)|;
    forall x ensures x in t <==> x in s { assert x in multiset(t) <==> x in multiset(s); }
    if NoRepeat(s) { SameRepeats(s, t); }
    if NoRepeat(t) { SameRepeats(t, s); }
  }

  // ---------------------------------------------------------------------------
  // Packing

  const U64_LIMIT: int := 0x1_0000_0000_0000_0000
  const ZERO_HASH: string := seq(64, _ => '0')

  datatype Package = Package(entries: seq<ArchiveEntry>, manifest: ReleaseManifest)

  predicate Fits(content: Option<Tree>) { IsFile(content) && |content.value.bytes| < U64_LIMIT }

  function Described(path: string, content: Tree, digest: Bytes -> string): PackageFile
    requires content.File? && |content.bytes| < U64_LIMIT
  {
    PackageFile(path, digest(content.bytes), |content.bytes|, content.executable)
  }

  /** A regular file entry with permissions 0o755 or 0o644. */
  function EntryOf(f: PackageFile, content: Tree): ArchiveEntry
    requires content.File? && |content.bytes| < U64_LIMIT
  {
    ArchiveEntry(f.path, if f.executable then 0x81ED else 0x81A4, |content.bytes|, content.bytes)
  }

  function PathsOf(files: seq<PackageFile>): seq<string> { seq(|files|, i requires 0 <= i < |files| => files[i].path) }

  predicate DescribedFrom(directory: Node, f: PackageFile, digest: Bytes -> string) {
    var content := RegularAt(directory, FilePath(f));
    Fits(content) && f == Described(f.path, content.value, digest)
  }

  predicate WrittenFrom(directory: Node, f: PackageFile, e: ArchiveEntry) {
    var content := RegularAt(directory, FilePath(f));
    Fits(content) && e == EntryOf(f, content.value)
  }

  /** The inventory and the entries describe the regular files of the directory, all of them. */
  ghost predicate Packed(directory: Node, files: seq<PackageFile>, entries: seq<ArchiveEntry>,
                         digest: Bytes -> string) {
    && ValidInventory(files) && |files| <= MAX_FILES && Sorted(PathsOf(files))
    && |entries| == |files|
    && (forall i | 0 <= i < |files| :: DescribedFrom(directory, files[i], digest))
    && (forall i | 0 <= i < |files| :: WrittenFrom(directory, files[i], entries[i]))
    && (forall q: Path | q != [] && RegularAt(directory, q).Some? ::
          exists i :: 0 <= i < |files| && FilePath(files[i]) == q)
  }

  /** A file whose path and content may be published. */
  predicate Publishable(directory: Node, q: Path, digest: Bytes -> string)
    requires q != []
  {
    var content := RegularAt(directory, q);
    Fits(content) && CheckPath(Join(q)) && CheckHash(digest(content.value.bytes))
  }

  predicate PathsCoexist(p: Path, q: Path)
    requires p != [] && q != []
  {
    Fold(Join(p)) != Fold(Join(q)) && !SlashAncestor(Fold(Join(p)), Fold(Join(q)))
  }

  /** The directories that can be packed. */
  ghost predicate Packable(directory: Node, kind: string, target: string, product: string, channel: string,
                           digest: Bytes -> string) {
    && kind in {"files", "mac_bundle"} && target != "" && product != "" && channel != ""
    && Ordinary(directory)
    && (forall q: Path | q != [] && RegularAt(directory, q).Some? :: Publishable(directory, q, digest))
    && (forall p: Path, q: Path |
          p != [] && q != [] && p != q && RegularAt(directory, p).Some? && RegularAt(directory, q).Some? ::
          PathsCoexist(p, q))
    && (exists froms :: Lists(froms, directory, []) && 0 < |froms| <= MAX_FILES)
  }

  // ---------------------------------------------------------------------------
  // Names and paths

  lemma ListsRoot(froms: seq<Path>, directory: Node, p: Path)
    requires Lists(froms, directory, [])
    ensures p in froms <==> p != [] && RegularAt(directory, p).Some?
  {
    var none: Path := [];
    assert p[|none|..] == p;
    assert p in froms <==> Beneath(directory, [], p);
  }

  lemma SlashedTwice(s: string)
    ensures Slashed(Slashed(s)) == Slashed(s)
  {
  }

  /** A backslash in a file name cannot slip through: were the rewritten path that of another file,
      that file would be collected under it too. */
  lemma NoBackslash(directory: Node, froms: seq<Path>, a: nat)
    requires Lists(froms, directory, []) && (forall i | 0 <= i < |froms| :: froms[i] != []) && NoRepeat(Names(froms))
    requires a < |froms|
    requires RegularAt(directory, Split(Name(froms[a]))).Some?
    ensures Split(Name(froms[a])) == froms[a] && Name(froms[a]) == Join(froms[a])
  {
    var name := Name(froms[a]);
    var q := Split(name);
    ListsRoot(froms, directory, q);
    var b :| 0 <= b < |froms| && froms[b] == q;
    JoinOfSplit(name);
    SlashedTwice(Join(froms[a]));
    assert Names(froms)[b] == name && Names(froms)[a] == name;
    assert a == b;
  }

  lemma {:induction false} PathParts(directory: Node, q: Path)
    requires Named(directory) && Lexical(directory, q).Some?
    ensures forall i | 0 <= i < |q| :: '/' !in q[i]
    decreases |q|
  {
    if q == [] {
    } else {
      PathParts(directory.entries[q[0]], q[1..]);
      forall i | 0 <= i < |q| ensures '/' !in q[i] { if i > 0 { assert q[i] == q[1..][i - 1]; } }
    }
  }

  lemma {:induction false} CleanParts(s: string)
    requires forall i | 0 <= i < |Split(s)| :: '\\' !in Split(s)[i]
    ensures '\\' !in s
  {
    if s == "" {
    } else {
      var tail := Split(s[1..]);
      forall i | 0 <= i < |tail| ensures '\\' !in tail[i] {
        if s[0] == '/' { assert Split(s)[i + 1] == tail[i]; }
        else if i > 0 { assert Split(s)[i] == tail[i]; }
        else { assert Split(s)[0] == [s[0]] + tail[0]; }
      }
      CleanParts(s[1..]);
      if s[0] != '/' { assert s[0] == Split(s)[0][0]; }
      assert s == [s[0]] + s[1..];
    }
  }

  lemma CheckedIsSlashed(s: string)
    requires CheckPath(s)
    ensures Slashed(s) == s
  {
    assert SPECIAL[0] == '\\';
    forall i | 0 <= i < |Split(s)| ensures '\\' !in Split(s)[i] { assert ValidPart(Split(s)[i]); }
    CleanParts(s);
  }

  /** A publishable file is collected under its own path. */
  lemma PublishableName(directory: Node, q: Path, digest: Bytes -> string)
    requires Named(directory) && q != [] && Publishable(directory, q, digest)
    ensures Name(q) == Join(q) && Split(Name(q)) == q
  {
    CheckedIsSlashed(Join(q));
    PathParts(directory, q);
    SplitOfJoin(q);
  }

  // ---------------------------------------------------------------------------
  // What validation of the draft manifest establishes

  /** The files collected, sorted and described. */
  ghost predicate Surveyed(directory: Node, froms: seq<Path>, files: seq<PackageFile>, digest: Bytes -> string) {
    && Lists(froms, directory, []) && (forall i | 0 <= i < |froms| :: froms[i] != [])
    && PathsOf(files) == Sort(Names(froms))
    && forall i | 0 <= i < |files| :: DescribedFrom(directory, files[i], digest)
  }

  lemma {:induction false} NoRepeatSize<T>(s: seq<T>)
    requires NoRepeat(s)
    ensures |set x | x in s| == |s|
    decreases |s|
  {
    if s == [] {
    } else {
      NoRepeatSize(s[1..]);
      assert s == [s[0]] + s[1..];
      assert (set x | x in s) == {s[0]} + set x | x in s[1..];
    }
  }

  lemma SameLength(froms: seq<Path>, others: seq<Path>, directory: Node)
    requires Lists(froms, directory, []) && Lists(others, directory, [])
    ensures |froms| == |others|
  {
    NoRepeatSize(froms);
    NoRepeatSize(others);
    assert (set x | x in froms) == set x | x in others by {
      forall x ensures x in froms <==> x in others { assert x in froms <==> Beneath(directory, [], x); }
    }
  }

  lemma ValidHasNoRepeat(files: seq<PackageFile>)
    requires ValidInventory(files)
    ensures NoRepeat(PathsOf(files))
  {
    forall i, j | 0 <= i < j < |files| ensures files[i].path != files[j].path { assert Coexist(files, i, j); }
  }

  /** Every regular file of the directory is described under its own path. */
  lemma SurveyedComplete(directory: Node, froms: seq<Path>, files: seq<PackageFile>, digest: Bytes -> string, q: Path)
    returns (i: nat)
    requires Surveyed(directory, froms, files, digest) && ValidInventory(files) && q != []
    requires RegularAt(directory, q).Some?
    ensures i < |files| && FilePath(files[i]) == q && files[i].path == Join(q)
  {
    ValidHasNoRepeat(files);
    SortRepeats(Names(froms));
    ListsRoot(froms, directory, q);
    var a :| 0 <= a < |froms| && froms[a] == q;
    assert Names(froms)[a] in Names(froms);
    assert Names(froms)[a] in PathsOf(files);
    i :| 0 <= i < |files| && PathsOf(files)[i] == Names(froms)[a];
    assert DescribedFrom(directory, files[i], digest);
    NoBackslash(directory, froms, a);
  }

  lemma SurveyedPublishable(directory: Node, froms: seq<Path>, files: seq<PackageFile>, digest: Bytes -> string,
                            q: Path)
    requires Surveyed(directory, froms, files, digest) && ValidInventory(files) && q != []
    requires RegularAt(directory, q).Some?
    ensures Publishable(directory, q, digest)
  {
    var i := SurveyedComplete(directory, froms, files, digest, q);
    assert DescribedFrom(directory, files[i], digest);
  }

  lemma SurveyedCoexist(directory: Node, froms: seq<Path>, files: seq<PackageFile>, digest: Bytes -> string, p: Path,
                        q: Path)
    requires Surveyed(directory, froms, files, digest) && ValidInventory(files) && p != [] && q != [] && p != q
    requires RegularAt(directory, p).Some? && RegularAt(directory, q).Some?
    ensures PathsCoexist(p, q)
  {
    var i := SurveyedComplete(directory, froms, files, digest, p);
    var j := SurveyedComplete(directory, froms, files, digest, q);
    assert Coexist(files, i, j);
  }

  lemma ValidMeansPackable(directory: Node, froms: seq<Path>, files: seq<PackageFile>, digest: Bytes -> string,
                           kind: string, target: string, product: string, channel: string)
    requires Surveyed(directory, froms, files, digest) && ValidInventory(files) && 0 < |files| <= MAX_FILES
    requires Ordinary(directory)
    requires kind in {"files", "mac_bundle"} && target != "" && product != "" && channel != ""
    ensures Packable(directory, kind, target, product, channel, digest)
  {
    forall q: Path | q != [] && RegularAt(directory, q).Some? ensures Publishable(directory, q, digest) {
      SurveyedPublishable(directory, froms, files, digest, q);
    }
    forall p: Path, q: Path |
      p != [] && q != [] && p != q && RegularAt(directory, p).Some? && RegularAt(directory, q).Some?
      ensures PathsCoexist(p, q)
    { SurveyedCoexist(directory, froms, files, digest, p, q); }
    SortRepeats(Names(froms));
    assert |PathsOf(files)| == |Names(froms)|;
    assert Lists(froms, directory, []) && 0 < |froms| <= MAX_FILES;
  }

  /** The file described at `i`, where all files are publishable. */
  lemma PackableOrigin(directory: Node, froms: seq<Path>, paths: seq<string>, digest: Bytes -> string, i: nat)
    returns (q: Path)
    requires Named(directory) && Lists(froms, directory, []) && (forall a | 0 <= a < |froms| :: froms[a] != [])
    requires paths == Sort(Names(froms)) && i < |paths|
    requires forall q: Path | q != [] && RegularAt(directory, q).Some? :: Publishable(directory, q, digest)
    ensures q in froms && q != [] && RegularAt(directory, q).Some? && Publishable(directory, q, digest)
    ensures paths[i] == Join(q) && Split(paths[i]) == q
  {
    SortRepeats(Names(froms));
    assert paths[i] in Names(froms);
    var a :| 0 <= a < |froms| && Names(froms)[a] == paths[i];
    q := froms[a];
    ListsRoot(froms, directory, q);
    PublishableName(directory, q, digest);
  }

  lemma PublishableFits(directory: Node, froms: seq<Path>, paths: seq<string>, digest: Bytes -> string)
    requires Named(directory) && Lists(froms, directory, []) && (forall a | 0 <= a < |froms| :: froms[a] != [])
    requires paths == Sort(Names(froms))
    requires forall q: Path | q != [] && RegularAt(directory, q).Some? :: Publishable(directory, q, digest)
    ensures forall i | 0 <= i < |paths| :: Fits(RegularAt(directory, Split(paths[i])))
  {
    forall i | 0 <= i < |paths| ensures Fits(RegularAt(directory, Split(paths[i]))) {
      var q := PackableOrigin(directory, froms, paths, digest, i);
    }
  }

  lemma PackableNamesDiffer(directory: Node, froms: seq<Path>, digest: Bytes -> string)
    requires Named(directory) && Lists(froms, directory, []) && (forall a | 0 <= a < |froms| :: froms[a] != [])
    requires forall q: Path | q != [] && RegularAt(directory, q).Some? :: Publishable(directory, q, digest)
    ensures NoRepeat(Names(froms))
  {
    forall a, b | 0 <= a < b < |froms| ensures Names(froms)[a] != Names(froms)[b] {
      ListsRoot(froms, directory, froms[a]);
      ListsRoot(froms, directory, froms[b]);
      PublishableName(directory, froms[a], digest);
      PublishableName(directory, froms[b], digest);
    }
  }

  lemma PackableMeansValid(directory: Node, froms: seq<Path>, files: seq<PackageFile>, digest: Bytes -> string,
                           kind: string, target: string, product: string, channel: string)
    requires Named(directory) && Surveyed(directory, froms, files, digest)
    requires Packable(directory, kind, target, product, channel, digest)
    ensures ValidInventory(files) && 0 < |files| <= MAX_FILES
  {
    var others :| Lists(others, directory, []) && 0 < |others| <= MAX_FILES;
    SameLength(froms, others, directory);
    SortRepeats(Names(froms));
    assert |PathsOf(files)| == |Names(froms)|;
    forall i | 0 <= i < |files| ensures CheckPath(files[i].path) && CheckHash(files[i].sha256) {
      var q := PackableOrigin(directory, froms, PathsOf(files), digest, i);
      assert DescribedFrom(directory, files[i], digest);
    }
    PackableNamesDiffer(directory, froms, digest);
    forall i, j | 0 <= i < |files| && 0 <= j < |files| && i != j ensures Coexist(files, i, j) {
      var p := PackableOrigin(directory, froms, PathsOf(files), digest, i);
      var q := PackableOrigin(directory, froms, PathsOf(files), digest, j);
      assert PathsOf(files)[i] != PathsOf(files)[j] by {
        if i < j {
          assert PathsOf(files)[i] != PathsOf(files)[j];
        } else {
          assert PathsOf(files)[j] != PathsOf(files)[i];
        }
      }
      assert PathsCoexist(p, q);
    }
  }

  // ---------------------------------------------------------------------------

  method DescribeFiles(directory: Node, paths: seq<string>, digest: Bytes -> string, reliable: bool)
    returns (r: Result<seq<PackageFile>>)
    ensures r.Success? ==>
              PathsOf(r.value) == paths && forall i | 0 <= i < |r.value| :: DescribedFrom(directory, r.value[i], digest)
    ensures reliable ==> (r.Success? <==> forall i | 0 <= i < |paths| :: Fits(RegularAt(directory, Split(paths[i]))))
  {
    var files: seq<PackageFile> := [];
    var i := 0;
    while i < |paths|
      invariant 0 <= i <= |paths| && PathsOf(files) == paths[..i]
      invariant forall k | 0 <= k < i :: DescribedFrom(directory, files[k], digest)
    {
      var o := Fault(reliable);
      if !o.Ok? { return Failure(Io); }
      var content := RegularAt(directory, Split(paths[i]));
      if !Fits(content) { return Failure(Io); }
      files := files + [Described(paths[i], content.value, digest)];
      i := i + 1;
    }
    forall k | 0 <= k < |paths| ensures Fits(RegularAt(directory, Split(paths[k]))) {
      assert PathsOf(files)[k] == paths[k] && DescribedFrom(directory, files[k], digest);
    }
    return Success(files);
  }

  method WriteEntries(directory: Node, files: seq<PackageFile>, digest: Bytes -> string, reliable: bool)
    returns (r: Result<seq<ArchiveEntry>>)
    requires forall i | 0 <= i < |files| :: DescribedFrom(directory, files[i], digest)
    ensures r.Success? ==> |r.value| == |files|
    ensures r.Success? ==> forall i | 0 <= i < |files| :: WrittenFrom(directory, files[i], r.value[i])
    ensures reliable ==> r.Success?
  {
    var entries: seq<ArchiveEntry> := [];
    var i := 0;
    while i < |files|
      invariant 0 <= i <= |files| && |entries| == i
      invariant forall k | 0 <= k < i :: WrittenFrom(directory, files[k], entries[k])
    {
      var o := Fault(reliable);
      if !o.Ok? { return Failure(Io); }
      assert DescribedFrom(directory, files[i], digest);
      entries := entries + [EntryOf(files[i], RegularAt(directory, FilePath(files[i])).value)];
      i := i + 1;
    }
    return Success(entries);
  }

  /** Collect, sort and describe. */
  method Survey(directory: Node, digest: Bytes -> string, reliable: bool)
    returns (r: Result<seq<PackageFile>>, ghost froms: seq<Path>)
    requires directory.Folder? && Named(directory)
    ensures r.Success? ==> Ordinary(directory) && Surveyed(directory, froms, r.value, digest)
    ensures reliable && r.Failure? && Ordinary(directory) ==>
              exists q: Path :: q != [] && RegularAt(directory, q).Some? && !Publishable(directory, q, digest)
  {
    var collected;
    collected, froms := CollectFiles(directory, [], []);
    if collected.Failure? { return Failure(collected.error), froms; }
    assert collected.value == Names(froms);
    var paths := Sort(collected.value);
    r := DescribeFiles(directory, paths, digest, reliable);
    if forall q: Path | q != [] && RegularAt(directory, q).Some? :: Publishable(directory, q, digest) {
      PublishableFits(directory, froms, paths, digest);
    }
  }

  /** Validation of the manifest with the placeholders for what is not known before the ZIP exists. */
  method ValidateDraft(draft: ReleaseManifest) returns (r: Result<()>)
    requires draft.schema == 1 && |draft.artifacts| == 1 && draft.artifacts[0].sha256 == ZERO_HASH
    requires draft.artifacts[0].size == 1
    ensures r.Success? <==>
              && draft.product != "" && draft.channel != "" && draft.artifacts[0].target != ""
              && 0 < |draft.artifacts[0].files| <= MAX_FILES && ValidInventory(draft.artifacts[0].files)
  {
    r := Validate(draft);
    assert ValidArtifact(draft.artifacts[0])
           <==> 0 < |draft.artifacts[0].files| <= MAX_FILES && ValidInventory(draft.artifacts[0].files);
  }

  lemma AllPacked(directory: Node, froms: seq<Path>, files: seq<PackageFile>, entries: seq<ArchiveEntry>,
                  digest: Bytes -> string)
    requires Surveyed(directory, froms, files, digest) && ValidInventory(files) && |files| <= MAX_FILES
    requires |entries| == |files| && forall i | 0 <= i < |files| :: WrittenFrom(directory, files[i], entries[i])
    ensures Packed(directory, files, entries, digest)
  {
    forall q: Path | q != [] && RegularAt(directory, q).Some?
      ensures exists i :: 0 <= i < |files| && FilePath(files[i]) == q
    {
      var i := SurveyedComplete(directory, froms, files, digest, q);
    }
  }

  /** The ZIP file would be longer than a file can be. */
  ghost predicate TooLarge(directory: Node, digest: Bytes -> string, encode: seq<ArchiveEntry> -> Bytes) {
    exists files, entries :: Packed(directory, files, entries, digest) && |encode(entries)| >= U64_LIMIT
  }

  lemma FitsAsPacked(directory: Node, files: seq<PackageFile>, entries: seq<ArchiveEntry>, digest: Bytes -> string,
                     encode: seq<ArchiveEntry> -> Bytes)
    requires Packed(directory, files, entries, digest)
    ensures TooLarge(directory, digest, encode) <==> |encode(entries)| >= U64_LIMIT
  {
    if files', entries' :| Packed(directory, files', entries', digest) && |encode(entries')| >= U64_LIMIT {
      PackIsDeterministic(directory, files, entries, files', entries', digest);
    }
  }

  /** Succeeds on exactly the packable directories whose ZIP file fits, if nothing interferes, and
      then describes and carries all their regular files. `encode` is the ZIP format. */
  method Pack(directory: Node, kind: string, target: string, product: string, channel: string,
              digest: Bytes -> string, encode: seq<ArchiveEntry> -> Bytes, reliable: bool)
    returns (r: Result<Package>)
    requires directory.Folder? && Named(directory)
    ensures r.Success? ==>
              var m := r.value.manifest;
              && m.schema == 1 && m.product == product && m.channel == channel && |m.artifacts| == 1
              && m.artifacts[0].target == target && (m.artifacts[0].kind == MacBundle <==> kind == "mac_bundle")
              && m.artifacts[0].sha256 == digest(encode(r.value.entries))
              && m.artifacts[0].size == |encode(r.value.entries)|
              && Packed(directory, m.artifacts[0].files, r.value.entries, digest)
    ensures r.Success? ==>
              Packable(directory, kind, target, product, channel, digest) && !TooLarge(directory, digest, encode)
    ensures reliable && r.Failure? ==>
              !Packable(directory, kind, target, product, channel, digest) || TooLarge(directory, digest, encode)
  {
    var survey; ghost var froms;
    survey, froms := Survey(directory, digest, reliable);
    if survey.Failure? { return Failure(survey.error); }
    if kind !in {"files", "mac_bundle"} { return Failure(Invalid); }
    var files := survey.value;
    var packageKind := if kind == "mac_bundle" then MacBundle else PackageKind.Files;
    var artifact := Artifact(target, packageKind, ZERO_HASH, 1, files);
    var valid := ValidateDraft(ReleaseManifest(1, product, channel, "", [artifact]));
    if Packable(directory, kind, target, product, channel, digest) {
      PackableMeansValid(directory, froms, files, digest, kind, target, product, channel);
    }
    if valid.Failure? { return Failure(valid.error); }
    ValidMeansPackable(directory, froms, files, digest, kind, target, product, channel);
    var written := WriteEntries(directory, files, digest, reliable);
    if written.Failure? { return Failure(written.error); }
    AllPacked(directory, froms, files, written.value, digest);
    FitsAsPacked(directory, files, written.value, digest, encode);
    var zip := encode(written.value);
    if |zip| >= U64_LIMIT { return Failure(Io); }
    artifact := artifact.(sha256 := digest(zip), size := |zip|);
    var o := Fault(reliable);
    if !o.Ok? { return Failure(Io); }
    return Success(Package(written.value, ReleaseManifest(1, product, channel, "", [artifact])));
  }

  // ---------------------------------------------------------------------------
  // Pack and extract are inverse

  lemma PackedEntry(directory: Node, files: seq<PackageFile>, entries: seq<ArchiveEntry>, digest: Bytes -> string,
                    i: nat)
    requires Packed(directory, files, entries, digest) && i < |files|
    ensures !IsDirectory(entries[i]) && Good(entries[i], files, digest)
    ensures entries[i].name == files[i].path
    ensures Some(File(entries[i].data, files[i].executable)) == RegularAt(directory, FilePath(files[i]))
  {
    assert WrittenFrom(directory, files[i], entries[i]) && DescribedFrom(directory, files[i], digest);
    assert CheckPath(files[i].path);
    NoTrailingSlash(files[i].path);
    assert Carries(entries[i], files[i], digest);
  }

  /** What `pack` writes is extractable whenever it stays within the limit, and only then. */
  lemma PackThenExtract(directory: Node, files: seq<PackageFile>, entries: seq<ArchiveEntry>, digest: Bytes -> string,
                        maxUnpacked: u64)
    requires Packed(directory, files, entries, digest)
    ensures Extractable(entries, files, digest, maxUnpacked) <==> TotalSize(files) <= maxUnpacked
  {
    forall i | 0 <= i < |entries|
      ensures Good(entries[i], files, digest)
    { PackedEntry(directory, files, entries, digest, i); }
    forall i, j | 0 <= i < j < |entries| ensures entries[i].name != entries[j].name {
      PackedEntry(directory, files, entries, digest, i);
      PackedEntry(directory, files, entries, digest, j);
      assert Coexist(files, i, j);
    }
    forall k | 0 <= k < |files|
      ensures Present(entries, files[k].path)
    { PackedEntry(directory, files, entries, digest, k); }
  }

  /** The round trip: a stage into which the package has been extracted holds the regular files of
      the packed directory, path for path, byte for byte, executable flag included. */
  lemma RoundTrip(directory: Node, files: seq<PackageFile>, entries: seq<ArchiveEntry>, digest: Bytes -> string,
                  stage: Tree, q: Path)
    requires directory.Folder? && stage.Dir?
    requires Packed(directory, files, entries, digest) && Delivered(entries, files, stage)
    ensures FileAt(stage, q) == RegularAt(directory, q)
  {
    if q != [] {
      if RegularAt(directory, q).Some? || FileAt(stage, q).Some? {
        var i :| 0 <= i < |files| && FilePath(files[i]) == q;
        PackedEntry(directory, files, entries, digest, i);
      }
    }
  }

  /** Packing is deterministic: the order in which the directory was listed leaves no trace. */
  lemma PackIsDeterministic(directory: Node, files: seq<PackageFile>, entries: seq<ArchiveEntry>,
                            files': seq<PackageFile>, entries': seq<ArchiveEntry>, digest: Bytes -> string)
    requires Packed(directory, files, entries, digest) && Packed(directory, files', entries', digest)
    ensures files == files' && entries == entries'
  {
    SamePaths(directory, files, entries, files', entries', digest);
    SamePaths(directory, files', entries', files, entries, digest);
    var s, t := PathsOf(files), PathsOf(files');
    ValidHasNoRepeat(files);
    ValidHasNoRepeat(files');
    forall x ensures multiset(s)[x] == multiset(t)[x] {
      NoRepeatCounts(s, x);
      NoRepeatCounts(t, x);
    }
    assert multiset(s) == multiset(t);
    SortedUnique(s, t);
    assert |files| == |s| == |t| == |files'|;
    forall i | 0 <= i < |files| ensures files[i] == files'[i] && entries[i] == entries'[i] {
      assert s[i] == t[i];
      assert DescribedFrom(directory, files[i], digest) && DescribedFrom(directory, files'[i], digest);
      assert WrittenFrom(directory, files[i], entries[i]) && WrittenFrom(directory, files'[i], entries'[i]);
    }
  }

  lemma SamePaths(directory: Node, files: seq<PackageFile>, entries: seq<ArchiveEntry>,
                  files': seq<PackageFile>, entries': seq<ArchiveEntry>, digest: Bytes -> string)
    requires Packed(directory, files, entries, digest) && Packed(directory, files', entries', digest)
    ensures forall x | x in PathsOf(files) :: x in PathsOf(files')
  {
    forall x | x in PathsOf(files) ensures x in PathsOf(files') {
      var i :| 0 <= i < |files| && PathsOf(files)[i] == x;
      assert DescribedFrom(directory, files[i], digest);
      var j :| 0 <= j < |files'| && FilePath(files'[j]) == FilePath(files[i]);
      SplitInjective(files[i].path, files'[j].path);
      assert PathsOf(files')[j] == x;
    }
  }

  // ---------------------------------------------------------------------------
  // What is packed, in plain terms

  /** The order of paths: at the first difference, or a prefix first. */
  lemma {:induction false} AtMostIff(a: string, b: string)
    ensures AtMost(a, b) <==>
              a <= b || exists i :: 0 <= i < |a| && i < |b| && a[..i] == b[..i] && a[i] < b[i]
    decreases |a|
  {
    if a == "" || b == "" {
    } else {
      var a', b' := a[1..], b[1..];
      AtMostIff(a', b');
      assert a == [a[0]] + a' && b == [b[0]] + b';
      if i :| 0 <= i < |a'| && i < |b'| && a'[..i] == b'[..i] && a'[i] < b'[i] && a[0] == b[0] {
        assert a[..i + 1] == [a[0]] + a'[..i] && b[..i + 1] == [b[0]] + b'[..i];
        assert a[i + 1] < b[i + 1];
      }
      if i :| 0 <= i < |a| && i < |b| && a[..i] == b[..i] && a[i] < b[i] {
        if i == 0 {
          assert a[..0] == b[..0];
        } else {
          assert a[0] == a[..i][0] == b[..i][0] == b[0];
          assert a'[..i - 1] == a[..i][1..] && b'[..i - 1] == b[..i][1..];
          assert a'[i - 1] < b'[i - 1];
        }
      }
      if a[0] < b[0] { assert a[..0] == b[..0]; }
    }
  }

  /** Something at or beneath `n` can be neither packed nor descended into. */
  predicate Odd(n: Node, q: Path) { Lexical(n, q).Some? && (Lexical(n, q).value.Link? || Lexical(n, q).value.Special?) }

  lemma OddHere(n: Node, q: Path)
    ensures Odd(n, []) <==> n.Link? || n.Special?
    ensures !n.Folder? && q != [] ==> !Odd(n, q)
    ensures n.Folder? && q != [] ==> (Odd(n, q) <==> q[0] in n.entries && Odd(n.entries[q[0]], q[1..]))
  {
  }

  lemma {:induction false} OrdinaryIff(n: Node)
    ensures Ordinary(n) <==> forall q: Path :: !Odd(n, q)
    decreases n
  {
    hide Odd;
    OddHere(n, []);
    if !n.Folder? {
      forall q: Path ensures Odd(n, q) <==> q == [] && (n.Link? || n.Special?) { OddHere(n, q); }
    } else {
      forall k | k in n.entries
        ensures Ordinary(n.entries[k]) <==> forall q: Path :: !Odd(n.entries[k], q)
      { OrdinaryIff(n.entries[k]); }
      if Ordinary(n) {
        forall q: Path ensures !Odd(n, q) {
          OddHere(n, q);
          if q != [] && q[0] in n.entries { assert !Odd(n.entries[q[0]], q[1..]); }
        }
      } else {
        var k :| k in n.entries && !Ordinary(n.entries[k]);
        var q: Path :| Odd(n.entries[k], q);
        var p := [k] + q;
        OddHere(n, p);
        assert p[0] == k && p[1..] == q;
      }
    }
  }

  /** What the manifest and the archive say: every regular file of the directory once, in ascending
      order of paths, with its hash, size, executable flag and bytes; as a regular file of mode 0755
      or 0644. */
  lemma PackedMeans(directory: Node, files: seq<PackageFile>, entries: seq<ArchiveEntry>, digest: Bytes -> string)
    requires Packed(directory, files, entries, digest)
    ensures |entries| == |files| <= 100_000
    ensures forall i | 0 <= i < |files| ::
              && Lexical(directory, Split(files[i].path)).Some?
              && Lexical(directory, Split(files[i].path)).value.Plain?
              && var content := Lexical(directory, Split(files[i].path)).value;
                 && files[i].sha256 == digest(content.bytes) && files[i].size == |content.bytes|
                 && files[i].executable == content.executable
                 && entries[i].name == files[i].path && entries[i].data == content.bytes
                 && entries[i].size == |content.bytes|
                 && entries[i].mode == if content.executable then 0x8000 + 7 * 64 + 5 * 8 + 5
                                       else 0x8000 + 6 * 64 + 4 * 8 + 4
    ensures forall q: Path | q != [] && Lexical(directory, q).Some? && Lexical(directory, q).value.Plain? ::
              exists i :: 0 <= i < |files| && Split(files[i].path) == q
    ensures forall i, j | 0 <= i < j < |files| ::
              && files[i].path != files[j].path
              && (files[i].path <= files[j].path
                  || exists k :: && 0 <= k < |files[i].path| && k < |files[j].path|
                                 && files[i].path[..k] == files[j].path[..k]
                                 && files[i].path[k] < files[j].path[k])
  {
    forall i | 0 <= i < |files|
      ensures DescribedFrom(directory, files[i], digest) && WrittenFrom(directory, files[i], entries[i])
    {}
    forall q: Path | q != [] && Lexical(directory, q).Some? && Lexical(directory, q).value.Plain?
      ensures exists i :: 0 <= i < |files| && Split(files[i].path) == q
    {
      assert RegularAt(directory, q).Some?;
      var i :| 0 <= i < |files| && FilePath(files[i]) == q;
    }
    PackedInOrder(directory, files, entries, digest);
  }

  lemma PackedInOrder(directory: Node, files: seq<PackageFile>, entries: seq<ArchiveEntry>, digest: Bytes -> string)
    requires Packed(directory, files, entries, digest)
    ensures forall i, j | 0 <= i < j < |files| ::
              && files[i].path != files[j].path
              && (files[i].path <= files[j].path
                  || exists k :: && 0 <= k < |files[i].path| && k < |files[j].path|
                                 && files[i].path[..k] == files[j].path[..k]
                                 && files[i].path[k] < files[j].path[k])
  {
    hide DescribedFrom, WrittenFrom, RegularAt;
    forall i, j | 0 <= i < j < |files|
      ensures files[i].path != files[j].path
      ensures files[i].path <= files[j].path
              || exists k :: && 0 <= k < |files[i].path| && k < |files[j].path|
                             && files[i].path[..k] == files[j].path[..k] && files[i].path[k] < files[j].path[k]
    {
      assert Coexist(files, i, j);
      assert AtMost(PathsOf(files)[i], PathsOf(files)[j]);
      AtMostIff(files[i].path, files[j].path);
    }
  }

  lemma PathsCoexistIff(p: Path, q: Path)
    requires p != [] && q != []
    ensures PathsCoexist(p, q) && PathsCoexist(q, p) <==> Apart(Split(Fold(Join(p))), Split(Fold(Join(q))))
  {
    var a, b := Fold(Join(p)), Fold(Join(q));
    AncestorIffPrefix(a, b);
    AncestorIffPrefix(b, a);
    if Split(a) == Split(b) { SplitInjective(a, b); }
  }

  /** Which directories can be packed. */
  lemma PackableIff(directory: Node, kind: string, target: string, product: string, channel: string,
                    digest: Bytes -> string)
    ensures Packable(directory, kind, target, product, channel, digest) <==>
              && (kind == "files" || kind == "mac_bundle") && |target| > 0 && |product| > 0 && |channel| > 0
              && (forall q: Path :: !Odd(directory, q))
              && (forall q: Path | q != [] && RegularAt(directory, q).Some? ::
                    && |RegularAt(directory, q).value.bytes| < 0x1_0000_0000_0000_0000
                    && CheckPath(Join(q)) && CheckHash(digest(RegularAt(directory, q).value.bytes)))
              && (forall p: Path, q: Path |
                    p != [] && q != [] && p != q && RegularAt(directory, p).Some? && RegularAt(directory, q).Some? ::
                    Apart(Split(Fold(Join(p))), Split(Fold(Join(q)))))
              && (exists froms :: Lists(froms, directory, []) && 1 <= |froms| <= 100_000)
  {
    hide Lists, CheckPath, CheckHash, Fold, Join, Split, PathsCoexist, Ordinary, Lexical, Odd;
    OrdinaryIff(directory);
    forall q: Path | q != [] && RegularAt(directory, q).Some?
      ensures Publishable(directory, q, digest) <==>
                && |RegularAt(directory, q).value.bytes| < 0x1_0000_0000_0000_0000
                && CheckPath(Join(q)) && CheckHash(digest(RegularAt(directory, q).value.bytes))
    { RegularIsFile(directory, q); }
    forall p: Path, q: Path |
      p != [] && q != [] && p != q && RegularAt(directory, p).Some? && RegularAt(directory, q).Some?
      ensures PathsCoexist(p, q) && PathsCoexist(q, p) <==> Apart(Split(Fold(Join(p))), Split(Fold(Join(q))))
    { PathsCoexistIff(p, q); }
  }

  lemma RegularIsFile(directory: Node, q: Path)
    ensures RegularAt(directory, q).Some? <==>
              Lexical(directory, q).Some? && Lexical(directory, q).value.Plain?
    ensures RegularAt(directory, q).Some? ==>
              var content := Lexical(directory, q).value;
              RegularAt(directory, q).value == File(content.bytes, content.executable)
  {
  }
}
