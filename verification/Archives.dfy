/** src/archive.rs: unpacking a downloaded archive into an empty stage directory. */
module Archives {
  import opened Outcomes
  import opened Paths
  import opened Trees
  import opened FileStores
  import opened Manifests
  import opened Inventories
  import opened Transactions

  const MAX_ENTRIES: int := 200_000
  const BUFFER: int := 65_536

  /** One record of an archive. `size` is what the record claims; `data` is what reading it yields. */
  datatype ArchiveEntry = ArchiveEntry(name: string, mode: nat, size: u64, data: Bytes)

  /** `trim_end_matches('/')`. */
  function Trimmed(name: string): (r: string)
    ensures r <= name && (r != "" ==> r[|r| - 1] != '/')
    ensures name != "" && name[|name| - 1] != '/' ==> r == name
    ensures forall i | |r| <= i < |name| :: name[i] == '/'
  {
    if name != "" && name[|name| - 1] == '/' then Trimmed(name[..|name| - 1]) else name
  }

  predicate IsDirectory(e: ArchiveEntry) { e.name != "" && e.name[|e.name| - 1] == '/' }

  /** The file type bits 0o170000 say nothing, regular file or directory. */
  predicate PlainMode(mode: nat) { mode / 0x1000 % 0x10 in {0, 0x8, 0x4} }

  predicate AboveDeclared(path: string, files: seq<PackageFile>) {
    exists k :: 0 <= k < |files| && SlashAncestor(path, files[k].path)
  }

  predicate Carries(e: ArchiveEntry, f: PackageFile, digest: Bytes -> string) {
    e.name == f.path && e.size == f.size && Intact(f, e.data, digest)
  }

  predicate Good(e: ArchiveEntry, files: seq<PackageFile>, digest: Bytes -> string) {
    && CheckPath(Trimmed(e.name))
    && PlainMode(e.mode)
    && if IsDirectory(e) then AboveDeclared(Trimmed(e.name), files)
       else exists k :: 0 <= k < |files| && Carries(e, files[k], digest)
  }

  function TotalSize(files: seq<PackageFile>): nat {
    if files == [] then 0 else TotalSize(files[..|files| - 1]) + files[|files| - 1].size
  }

  function TotalBytes(made: seq<Placed>): nat
    requires OnlyFiles(made)
  {
    if made == [] then 0 else TotalBytes(made[..|made| - 1]) + |made[|made| - 1].tree.bytes|
  }

  predicate Present(entries: seq<ArchiveEntry>, path: string) {
    exists i :: 0 <= i < |entries| && !IsDirectory(entries[i]) && entries[i].name == path
  }

  /** What an archive must be for extraction to succeed: every declared file exactly once, true to
      size and hash, nothing else but directories above declared files, and all within the limits. */
  predicate Extractable(entries: seq<ArchiveEntry>, files: seq<PackageFile>, digest: Bytes -> string,
                        maxUnpacked: u64) {
    && |entries| <= MAX_ENTRIES
    && (forall i | 0 <= i < |entries| :: Good(entries[i], files, digest))
    && (forall i, j | 0 <= i < j < |entries| && !IsDirectory(entries[i]) && !IsDirectory(entries[j]) ::
          entries[i].name != entries[j].name)
    && (forall k | 0 <= k < |files| :: Present(entries, files[k].path))
    && TotalSize(files) <= maxUnpacked
  }

  /** The stage holds the content of every file entry under its name, and no other regular file. */
  ghost predicate Delivered(entries: seq<ArchiveEntry>, files: seq<PackageFile>, stage: Tree) {
    && (forall i, k |
          0 <= i < |entries| && 0 <= k < |files| && !IsDirectory(entries[i]) && entries[i].name == files[k].path ::
          At(stage, FilePath(files[k])) == Some(File(entries[i].data, files[k].executable)))
    && (forall q: Path | FileAt(stage, q).Some? :: exists k :: 0 <= k < |files| && FilePath(files[k]) == q)
  }

  // ---------------------------------------------------------------------------
  // The stage while files appear in it

  /** `made` lists the regular files of `tree`, except perhaps one at `p`. */
  ghost predicate HoldsBut(tree: Tree, made: seq<Placed>, p: Path) {
    && OnlyFiles(made) && AllApart(made)
    && (forall i | 0 <= i < |made| :: Apart(made[i].path, p))
    && (forall i | 0 <= i < |made| :: At(tree, made[i].path) == Some(made[i].tree))
    && (forall q: Path | FileAt(tree, q).Some? && q != p :: exists i :: 0 <= i < |made| && made[i].path == q)
  }

  /** `made` lists the regular files of `tree`. */
  ghost predicate Holds(tree: Tree, made: seq<Placed>) {
    && OnlyFiles(made) && AllApart(made)
    && (forall i | 0 <= i < |made| :: At(tree, made[i].path) == Some(made[i].tree))
    && (forall q: Path | FileAt(tree, q).Some? :: exists i :: 0 <= i < |made| && made[i].path == q)
  }

  /** Every node of the stage is a declared file or a directory above one. */
  ghost predicate Rooted(tree: Tree, files: seq<PackageFile>) {
    tree.Dir? && forall q: Path | At(tree, q).Some? && q != [] :: Leads(tree, q, files)
  }

  predicate Leads(tree: Tree, q: Path, files: seq<PackageFile>) {
    exists k :: 0 <= k < |files| && q <= FilePath(files[k]) && (IsDir(At(tree, q)) ==> q < FilePath(files[k]))
  }

  lemma DirsKeepFiles(t: Tree, t': Tree, p: Path, q: Path)
    requires SomeDirsMade(t, t', p)
    ensures FileAt(t', q) == FileAt(t, q)
    ensures At(t', q).Some? ==> At(t, q).Some? || q <= p
  {
    if t' != t {
      var i :| 0 <= i <= |p| && Some(t') == MakeDirs(t, p[..i]);
      var r := p[..i];
      MakeDirsKept(t, r, q);
      if r <= q {
        assert q == r + q[|r|..];
        AtAppend(t, r, q[|r|..]);
        AtAppend(t', r, q[|r|..]);
      }
    }
  }

  lemma HoldsAfterDirs(t: Tree, t': Tree, made: seq<Placed>, files: seq<PackageFile>, f: PackageFile)
    requires Holds(t, made) && Rooted(t, files) && f in files
    requires SomeDirsMade(t, t', FilePath(f)[..|FilePath(f)| - 1])
    ensures Holds(t', made) && Rooted(t', files)
  {
    var p := FilePath(f)[..|FilePath(f)| - 1];
    forall i | 0 <= i < |made| ensures At(t', made[i].path) == Some(made[i].tree) {
      DirsKeepFiles(t, t', p, made[i].path);
    }
    forall q: Path | FileAt(t', q).Some? ensures exists i :: 0 <= i < |made| && made[i].path == q {
      DirsKeepFiles(t, t', p, q);
    }
    DirsKeepFiles(t, t', p, []);
    var k :| 0 <= k < |files| && files[k] == f;
    forall q: Path | At(t', q).Some? && q != [] ensures Leads(t', q, files) {
      DirsKeepFiles(t, t', p, q);
      if q <= p {
        assert q < FilePath(files[k]);
      } else {
        assert Leads(t, q, files);
      }
    }
  }

  lemma HoldsAfterWrite(t: Tree, t': Tree, made: seq<Placed>, w: Placed, files: seq<PackageFile>, f: PackageFile)
    requires HoldsBut(t, made, w.path) && Rooted(t, files) && f in files && w.path == FilePath(f)
    requires w.tree.File? && Put(t, w.path, w.tree) == Some(t')
    ensures Holds(t', made + [w]) && Rooted(t', files)
    ensures HoldsBut(t', made, w.path)
  {
    var p, listed := w.path, made + [w];
    PutAt(t, p, w.tree);
    forall i | 0 <= i < |made|
      ensures At(t', made[i].path) == Some(made[i].tree)
    { PutKept(t, p, w.tree, made[i].path); }
    forall q: Path | FileAt(t', q).Some? && q != p ensures exists i :: 0 <= i < |made| && made[i].path == q {
      PutKept(t, p, w.tree, q);
      if p < q { AtBeneath(t', p, q); }
      assert FileAt(t, q).Some?;
    }
    forall q: Path | FileAt(t', q).Some? ensures exists i :: 0 <= i < |listed| && listed[i].path == q {
      if q == p { assert listed[|made|].path == q; }
      else {
        var i :| 0 <= i < |made| && made[i].path == q;
        assert listed[i].path == q;
      }
    }
    PutKept(t, p, w.tree, []);
    var k :| 0 <= k < |files| && files[k] == f;
    forall q: Path | At(t', q).Some? && q != [] ensures Leads(t', q, files) {
      PutKept(t, p, w.tree, q);
      if p < q { AtBeneath(t', p, q); }
      if q <= p {
        assert q <= FilePath(files[k]) && (IsDir(At(t', q)) ==> q != p);
      } else {
        assert At(t', q) == At(t, q);
        assert Leads(t, q, files);
      }
    }
  }

  lemma NoFileListed(t: Tree, made: seq<Placed>, p: Path, q: Path)
    requires Holds(t, made) && q <= p && forall i | 0 <= i < |made| :: Apart(made[i].path, p)
    ensures !IsFile(At(t, q))
  {
    assert FileAt(t, q) == None;
  }

  /** Nothing is in the way of a declared file that has not been written: neither in the
      directories above it nor at its own name. */
  lemma NothingInTheWay(t: Tree, made: seq<Placed>, files: seq<PackageFile>, f: PackageFile)
    requires ValidInventory(files) && f in files && Holds(t, made) && Rooted(t, files)
    requires forall i | 0 <= i < |made| :: Apart(made[i].path, FilePath(f))
    ensures CanMake(t, FilePath(f)) && At(t, FilePath(f)) == None
    ensures HoldsBut(t, made, FilePath(f))
  {
    var p := FilePath(f);
    forall i | 0 <= i < |p| ensures !IsFile(At(t, p[..i])) {
      NoFileListed(t, made, p, p[..i]);
    }
    NoFileListed(t, made, p, p);
    if At(t, p).Some? {
      assert p != [] && Leads(t, p, files);
      var k :| 0 <= k < |files| && p <= FilePath(files[k]) && (IsDir(At(t, p)) ==> p < FilePath(files[k]));
      var j :| 0 <= j < |files| && files[j] == f;
      if j != k { InventoryApart(files, j, k); }
    }
  }

  /** The file `w` is being written after those of `done`. */
  ghost predicate Writing(tree: Tree, files: seq<PackageFile>, done: seq<Placed>, w: Placed) {
    && Rooted(tree, files)
    && HoldsBut(tree, done, w.path) && Holds(tree, done + [w])
    && At(tree, w.path) == Some(w.tree)
  }

  /** One more file than `done`: `f`, so far within its declared size. */
  predicate OneMore(done: seq<Placed>, made: seq<Placed>, f: PackageFile) {
    && |made| == |done| + 1 && made[..|done|] == done
    && var w := made[|done|];
       w.path == FilePath(f) && w.tree.File? && |w.tree.bytes| <= f.size
  }

  // ---------------------------------------------------------------------------

  /** The files of a declared inventory by path. */
  function Inventory(files: seq<PackageFile>): (m: map<string, PackageFile>)
    requires ValidInventory(files)
    ensures forall path :: path in m <==> exists k :: 0 <= k < |files| && files[k].path == path
    ensures forall path | path in m :: m[path] in files && m[path].path == path
  {
    DistinctPaths(files);
    map k | 0 <= k < |files| :: files[k].path := files[k]
  }

  /** Paths that differ ignoring case differ. */
  lemma DistinctPaths(files: seq<PackageFile>)
    requires ValidInventory(files)
    ensures forall j, k | 0 <= j < |files| && 0 <= k < |files| && Fold(files[j].path) == Fold(files[k].path) :: j == k
  {
    forall j, k | 0 <= j < |files| && 0 <= k < |files| && Fold(files[j].path) == Fold(files[k].path) ensures j == k {
      assert j != k ==> Coexist(files, j, k);
    }
  }

  /** `read`: some of what is left, nothing only at the end. */
  method Read(left: nat) returns (n: nat)
    ensures n <= left && n <= BUFFER && (n == 0 <==> left == 0)
  {
    var most := if left < BUFFER then left else BUFFER;
    n := *;
    if left == 0 || !(0 < n <= most) { n := most; }
  }

  method CreateOutput(stage: FileStore, f: PackageFile, ghost files: seq<PackageFile>, ghost done: seq<Placed>)
    returns (o: Outcome, ghost made: seq<Placed>)
    requires ValidInventory(files) && f in files && Holds(stage.tree, done) && Rooted(stage.tree, files)
    requires forall i | 0 <= i < |done| :: Apart(done[i].path, FilePath(f))
    modifies stage
    ensures Rooted(stage.tree, files) && Holds(stage.tree, made)
    ensures made in {done, done + [Placed(FilePath(f), File([], false))]}
    ensures o.Ok? ==> made == done + [Placed(FilePath(f), File([], false))]
    ensures o.Ok? ==> Writing(stage.tree, files, done, Placed(FilePath(f), File([], false)))
    ensures stage.reliable ==> o.Ok?
  {
    var p := FilePath(f);
    var parent := p[..|p| - 1];
    made := done;
    ghost var t0 := stage.tree;
    NothingInTheWay(t0, done, files, f);
    ParentIff(t0, p);
    o := stage.CreateDirAll(parent);
    HoldsAfterDirs(t0, stage.tree, done, files, f);
    if !o.Ok? { return; }
    MakeDirsKept(t0, parent, parent);
    NothingInTheWay(stage.tree, done, files, f);
    ghost var t1 := stage.tree;
    o := stage.CreateNew(p);
    if o.Ok? || stage.tree != t1 {
      made := done + [Placed(p, File([], false))];
      PutAt(t1, p, File([], false));
      HoldsAfterWrite(t1, stage.tree, done, Placed(p, File([], false)), files, f);
    }
  }

  lemma PrefixGrows(data: Bytes, i: nat, j: nat)
    requires i <= j <= |data|
    ensures data[..i] + data[i..j] == data[..j] && data[..|data|] == data
  {
  }

  /** The write loop for one entry: cancellation, read errors and write errors may stop it anywhere. */
  method UnpackEntry(stage: FileStore, e: ArchiveEntry, f: PackageFile, digest: Bytes -> string,
                     ghost files: seq<PackageFile>, ghost done: seq<Placed>)
    returns (o: Outcome, ghost made: seq<Placed>)
    requires ValidInventory(files) && f in files && Holds(stage.tree, done) && Rooted(stage.tree, files)
    requires forall i | 0 <= i < |done| :: Apart(done[i].path, FilePath(f))
    modifies stage
    ensures Rooted(stage.tree, files) && Holds(stage.tree, made)
    ensures made == done || OneMore(done, made, f)
    ensures o.Ok? ==> made == done + [Placed(FilePath(f), File(e.data, f.executable))] && Intact(f, e.data, digest)
    ensures stage.reliable ==> !o.Crashed? && (o.Ok? <==> Intact(f, e.data, digest))
  {
    hide Holds, HoldsBut, Rooted, ValidInventory;
    var p := FilePath(f);
    o, made := CreateOutput(stage, f, files, done);
    if !o.Ok? { return; }
    var written := 0;
    var hashed: Bytes := [];
    while true
      invariant 0 <= written <= |e.data| && written <= f.size && hashed == e.data[..written] && o.Ok?
      invariant made == done + [Placed(p, File(hashed, false))]
      invariant Writing(stage.tree, files, done, Placed(p, File(hashed, false)))
      decreases |e.data| - written
    {
      o := Fault(stage.reliable);
      if !o.Ok? { return; }
      var n := Read(|e.data| - written);
      if n == 0 { break; }
      var chunk := e.data[written..written + n];
      written := written + n;
      if written > f.size { return Err(SizeLimit), made; }
      o, made := WriteChunk(stage, f, hashed, chunk, files, done);
      if !o.Ok? { return; }
      hashed := hashed + chunk;
      PrefixGrows(e.data, written - n, written);
    }
    PrefixGrows(e.data, 0, |e.data|);
    if written != f.size || Fold(digest(hashed)) != Fold(f.sha256) { return Err(HashMismatch), made; }
    o, made := SealOutput(stage, f, hashed, files, done);
  }

  method WriteChunk(stage: FileStore, f: PackageFile, hashed: Bytes, chunk: Bytes, ghost files: seq<PackageFile>,
                    ghost done: seq<Placed>)
    returns (o: Outcome, ghost made: seq<Placed>)
    requires f in files && |hashed| + |chunk| <= f.size && FilePath(f) != []
    requires Writing(stage.tree, files, done, Placed(FilePath(f), File(hashed, false)))
    modifies stage
    ensures Rooted(stage.tree, files) && Holds(stage.tree, made) && OneMore(done, made, f)
    ensures o.Ok? ==> made == done + [Placed(FilePath(f), File(hashed + chunk, false))]
    ensures o.Ok? ==> Writing(stage.tree, files, done, Placed(FilePath(f), File(hashed + chunk, false)))
    ensures stage.reliable ==> o.Ok?
  {
    var p := FilePath(f);
    ghost var t := stage.tree;
    o := stage.Append(p, chunk);
    ghost var w := Placed(p, At(stage.tree, p).value);
    HoldsAfterWrite(t, stage.tree, done, w, files, f);
    made := done + [w];
  }

  method SealOutput(stage: FileStore, f: PackageFile, content: Bytes, ghost files: seq<PackageFile>,
                    ghost done: seq<Placed>)
    returns (o: Outcome, ghost made: seq<Placed>)
    requires f in files && |content| <= f.size && FilePath(f) != []
    requires Writing(stage.tree, files, done, Placed(FilePath(f), File(content, false)))
    modifies stage
    ensures Rooted(stage.tree, files) && Holds(stage.tree, made) && OneMore(done, made, f)
    ensures o.Ok? ==> made == done + [Placed(FilePath(f), File(content, f.executable))]
    ensures stage.reliable ==> o.Ok?
  {
    var p := FilePath(f);
    ghost var t := stage.tree;
    made := done + [Placed(p, File(content, false))];
    o := stage.SetExecutable(p, f.executable);
    if o.Ok? || stage.tree != t {
      ghost var w := Placed(p, File(content, f.executable));
      HoldsAfterWrite(t, stage.tree, done, w, files, f);
      made := done + [w];
    }
  }

  // ---------------------------------------------------------------------------
  // The loop over the entries

  /** The file entry `e` has become `w`, as `f` declares it. */
  predicate Taken(e: ArchiveEntry, f: PackageFile, w: Placed, files: seq<PackageFile>) {
    && !IsDirectory(e) && e.name == f.path && f in files && |e.data| == f.size
    && w == Placed(FilePath(f), File(e.data, f.executable))
  }

  /** The state of the loop after `k` entries: the file entries among them, at the indices `from`,
      were the declared files `chosen` and now are `made`. */
  ghost predicate Extracted(entries: seq<ArchiveEntry>, files: seq<PackageFile>, digest: Bytes -> string, k: nat,
                            from: seq<nat>, chosen: seq<PackageFile>, made: seq<Placed>)
  {
    && Choices(entries, files, k, from, chosen, made)
    && forall i | 0 <= i < k :: Good(entries[i], files, digest)
  }

  ghost predicate Choices(entries: seq<ArchiveEntry>, files: seq<PackageFile>, k: nat,
                          from: seq<nat>, chosen: seq<PackageFile>, made: seq<Placed>)
  {
    && k <= |entries| && |from| == |chosen| == |made| && OnlyFiles(made)
    && (forall m | 0 <= m < |from| :: from[m] < k && Taken(entries[from[m]], chosen[m], made[m], files))
    && (forall i | 0 <= i < k :: !IsDirectory(entries[i]) ==> i in from)
    && (forall m, n | 0 <= m < n < |chosen| :: chosen[m].path != chosen[n].path)
  }

  lemma DirectoryTaken(entries: seq<ArchiveEntry>, files: seq<PackageFile>, digest: Bytes -> string, k: nat,
                       from: seq<nat>, chosen: seq<PackageFile>, made: seq<Placed>)
    requires Extracted(entries, files, digest, k, from, chosen, made)
    requires k < |entries| && Good(entries[k], files, digest) && IsDirectory(entries[k])
    ensures Extracted(entries, files, digest, k + 1, from, chosen, made)
  {
  }

  lemma FileTaken(entries: seq<ArchiveEntry>, files: seq<PackageFile>, digest: Bytes -> string, k: nat,
                  from: seq<nat>, chosen: seq<PackageFile>, made: seq<Placed>, f: PackageFile, w: Placed)
    requires Extracted(entries, files, digest, k, from, chosen, made)
    requires k < |entries| && Good(entries[k], files, digest) && Taken(entries[k], f, w, files)
    requires FilePath(f) != [] && forall m | 0 <= m < |chosen| :: chosen[m].path != f.path
    ensures Extracted(entries, files, digest, k + 1, from + [k], chosen + [f], made + [w])
  {
  }

  /** The folded names seen so far. */
  ghost function Folds(chosen: seq<PackageFile>): set<string> { Keys(FileSet(chosen), true) }

  ghost function FileSet(files: seq<PackageFile>): set<PackageFile> { set f | f in files }

  /** What identifies a file, without or with regard to letter case. */
  function Key(f: PackageFile, fold: bool): string { if fold then Fold(f.path) else f.path }

  ghost function Keys(s: set<PackageFile>, fold: bool): set<string> { set f | f in s :: Key(f, fold) }

  lemma SameFoldSameFile(files: seq<PackageFile>, f: PackageFile, g: PackageFile)
    requires ValidInventory(files) && f in files && g in files && Fold(f.path) == Fold(g.path)
    ensures f == g
  {
    DistinctPaths(files);
  }

  /** A name seen before, in whatever case, is the name of the very file it named before. */
  lemma SeenMeansRepeated(entries: seq<ArchiveEntry>, files: seq<PackageFile>, digest: Bytes -> string, k: nat,
                          from: seq<nat>, chosen: seq<PackageFile>, made: seq<Placed>, f: PackageFile, maxUnpacked: u64)
    requires ValidInventory(files) && Extracted(entries, files, digest, k, from, chosen, made)
    requires k < |entries| && f in files && !IsDirectory(entries[k]) && entries[k].name == f.path
    requires Fold(f.path) in Folds(chosen)
    ensures !Extractable(entries, files, digest, maxUnpacked)
  {
    hide ValidInventory, Good;
    var g :| g in chosen && Key(g, true) == Fold(f.path);
    var m :| 0 <= m < |chosen| && chosen[m] == g;
    assert Taken(entries[from[m]], chosen[m], made[m], files);
    SameFoldSameFile(files, chosen[m], f);
  }

  lemma UnseenIsApart(files: seq<PackageFile>, chosen: seq<PackageFile>, f: PackageFile)
    requires ValidInventory(files) && f in files && Fold(f.path) !in Folds(chosen)
    requires forall m | 0 <= m < |chosen| :: chosen[m] in files
    ensures forall m | 0 <= m < |chosen| :: chosen[m].path != f.path && Apart(FilePath(chosen[m]), FilePath(f))
  {
    forall m | 0 <= m < |chosen| ensures chosen[m].path != f.path && Apart(FilePath(chosen[m]), FilePath(f)) {
      assert chosen[m] in FileSet(chosen) && Key(chosen[m], true) in Folds(chosen);
      var a :| 0 <= a < |files| && files[a] == chosen[m];
      var b :| 0 <= b < |files| && files[b] == f;
      InventoryApart(files, a, b);
    }
  }

  lemma {:induction false} TotalWithout(files: seq<PackageFile>, i: nat)
    requires i < |files|
    ensures TotalSize(files) == files[i].size + TotalSize(files[..i] + files[i + 1..])
    decreases |files|
  {
    var n := |files| - 1;
    var rest := files[..i] + files[i + 1..];
    if i == n {
      assert rest == files[..n];
    } else {
      assert files[..n][..i] + files[..n][i + 1..] == rest[..|rest| - 1];
      assert rest[|rest| - 1] == files[n];
      TotalWithout(files[..n], i);
    }
  }

  /** Files chosen without repetition weigh no more than all of them. */
  lemma {:induction false} ChosenTotal(chosen: seq<PackageFile>, files: seq<PackageFile>)
    requires forall m | 0 <= m < |chosen| :: chosen[m] in files
    requires forall m, n | 0 <= m < n < |chosen| :: chosen[m].path != chosen[n].path
    ensures TotalSize(chosen) <= TotalSize(files)
    decreases |chosen|
  {
    if chosen == [] {
    } else {
      var last := chosen[|chosen| - 1];
      var i :| 0 <= i < |files| && files[i] == last;
      var fewer, rest := chosen[..|chosen| - 1], files[..i] + files[i + 1..];
      TotalWithout(files, i);
      forall m | 0 <= m < |fewer| ensures fewer[m] in rest {
        assert fewer[m] == chosen[m] && chosen[m] in files;
        var a :| 0 <= a < |files| && files[a] == chosen[m];
        assert rest[if a < i then a else a - 1] == fewer[m];
      }
      ChosenTotal(fewer, rest);
    }
  }

  lemma {:induction false} KeyCount(s: set<PackageFile>, fold: bool)
    requires forall f, g | f in s && g in s && Key(f, fold) == Key(g, fold) :: f == g
    ensures |Keys(s, fold)| == |s|
    decreases |s|
  {
    if s == {} {
    } else {
      var x :| x in s;
      var rest := s - {x};
      KeyCount(rest, fold);
      assert Keys(s, fold) == Keys(rest, fold) + {Key(x, fold)};
    }
  }

  lemma SubsetOfSameSize<T>(a: set<T>, b: set<T>)
    requires a <= b
    ensures |a| == |b| <==> a == b
  {
    assert |b - a| == |b| - |a|;
    if |a| == |b| { assert b - a == {}; }
  }

  /** Completeness by counting: as many folded names as declared files means all declared files,
      because folding is injective on a valid inventory and only declared names were seen. */
  lemma CountingIsComplete(files: seq<PackageFile>, chosen: seq<PackageFile>)
    requires ValidInventory(files) && FileSet(chosen) <= FileSet(files)
    ensures |Folds(chosen)| == |Inventory(files)| <==> FileSet(chosen) == FileSet(files)
  {
    SizeOfInventory(files);
    SizeOfFolds(files, chosen);
    SubsetOfSameSize(FileSet(chosen), FileSet(files));
  }

  lemma SizeOfInventory(files: seq<PackageFile>)
    requires ValidInventory(files)
    ensures |Inventory(files)| == |FileSet(files)|
  {
    forall f, g | f in FileSet(files) && g in FileSet(files) && Key(f, false) == Key(g, false)
      ensures f == g
    { SameFoldSameFile(files, f, g); }
    KeyCount(FileSet(files), false);
    var m := Inventory(files);
    forall path ensures path in m.Keys <==> path in Keys(FileSet(files), false) {
      if path in m.Keys { assert m[path] in FileSet(files) && Key(m[path], false) == path; }
      if path in Keys(FileSet(files), false) { var f :| f in files && Key(f, false) == path; }
    }
    assert m.Keys == Keys(FileSet(files), false);
  }

  lemma SizeOfFolds(files: seq<PackageFile>, chosen: seq<PackageFile>)
    requires ValidInventory(files) && FileSet(chosen) <= FileSet(files)
    ensures |Folds(chosen)| == |FileSet(chosen)|
  {
    forall f, g | f in FileSet(chosen) && g in FileSet(chosen) && Key(f, true) == Key(g, true)
      ensures f == g
    { SameFoldSameFile(files, f, g); }
    KeyCount(FileSet(chosen), true);
  }

  // ---------------------------------------------------------------------------

  datatype Trace = Trace(from: seq<nat>, chosen: seq<PackageFile>, made: seq<Placed>)

  /** Within the declared size of a declared file. */
  predicate Bounded(w: Placed, files: seq<PackageFile>) {
    w.tree.File? && exists k :: 0 <= k < |files| && w.path == FilePath(files[k]) && |w.tree.bytes| <= files[k].size
  }

  /** What holds of the stage at every moment, also when extraction fails or dies. */
  ghost predicate Limited(stage: Tree, files: seq<PackageFile>, maxUnpacked: u64, made: seq<Placed>) {
    && Holds(stage, made)
    && (forall m | 0 <= m < |made| :: Bounded(made[m], files))
    && TotalBytes(made) <= maxUnpacked
  }

  ghost predicate Looping(stage: Tree, entries: seq<ArchiveEntry>, files: seq<PackageFile>, digest: Bytes -> string,
                          maxUnpacked: u64,
                          k: nat, seen: set<string>, total: u64, t: Trace)
  {
    && Extracted(entries, files, digest, k, t.from, t.chosen, t.made)
    && Settled(stage, files, t.made)
    && Accounted(seen, total, maxUnpacked, t.chosen, t.made)
  }

  ghost predicate Settled(stage: Tree, files: seq<PackageFile>, made: seq<Placed>) {
    Rooted(stage, files) && Holds(stage, made)
  }

  ghost predicate Accounted(seen: set<string>, total: u64, maxUnpacked: u64, chosen: seq<PackageFile>,
                            made: seq<Placed>) {
    && seen == Folds(chosen)
    && OnlyFiles(made) && total == TotalSize(chosen) == TotalBytes(made) && total <= maxUnpacked
  }

  lemma LoopingIsLimited(stage: Tree, entries: seq<ArchiveEntry>, files: seq<PackageFile>, digest: Bytes -> string,
                         maxUnpacked: u64,
                         k: nat, seen: set<string>, total: u64, t: Trace)
    requires Looping(stage, entries, files, digest, maxUnpacked, k, seen, total, t)
    ensures Limited(stage, files, maxUnpacked, t.made)
  {
    forall m | 0 <= m < |t.made| ensures Bounded(t.made[m], files) {
      assert Taken(entries[t.from[m]], t.chosen[m], t.made[m], files);
      var k :| 0 <= k < |files| && files[k] == t.chosen[m];
    }
  }

  lemma PartLimited(stage: Tree, files: seq<PackageFile>, maxUnpacked: u64, done: seq<Placed>, made: seq<Placed>,
                    f: PackageFile)
    requires Holds(stage, made) && (forall m | 0 <= m < |done| :: Bounded(done[m], files)) && OnlyFiles(done)
    requires f in files && TotalBytes(done) + f.size <= maxUnpacked
    requires made == done || OneMore(done, made, f)
    ensures Limited(stage, files, maxUnpacked, made)
  {
    if made != done {
      var w := made[|done|];
      var k :| 0 <= k < |files| && files[k] == f;
      assert Bounded(w, files);
      forall m | 0 <= m < |done| ensures Bounded(made[m], files) { assert made[m] == made[..|done|][m]; }
    }
  }

  lemma LoopedOnce(stage: Tree, stage': Tree, entries: seq<ArchiveEntry>, files: seq<PackageFile>,
                   digest: Bytes -> string, maxUnpacked: u64,
                   k: nat, seen: set<string>, total: u64, t: Trace, f: PackageFile, w: Placed)
    requires Looping(stage, entries, files, digest, maxUnpacked, k, seen, total, t)
    requires k < |entries| && f in files && Fold(f.path) !in seen && FilePath(f) != []
    requires PlainMode(entries[k].mode) && Carries(entries[k], f, digest) && Taken(entries[k], f, w, files)
    requires CheckPath(Trimmed(entries[k].name)) && total + f.size <= maxUnpacked
    requires Settled(stage', files, t.made + [w])
    ensures Looping(stage', entries, files, digest, maxUnpacked, k + 1, seen + {Fold(f.path)}, total + f.size,
                    Trace(t.from + [k], t.chosen + [f], t.made + [w]))
  {
    GoodFile(entries[k], files, digest, f);
    UnseenIsNew(t.chosen, f);
    FileTaken(entries, files, digest, k, t.from, t.chosen, t.made, f, w);
    OneMoreAccounted(seen, total, maxUnpacked, t.chosen, t.made, f, w);
  }

  lemma OneMoreAccounted(seen: set<string>, total: u64, maxUnpacked: u64, chosen: seq<PackageFile>, made: seq<Placed>,
                         f: PackageFile, w: Placed)
    requires Accounted(seen, total, maxUnpacked, chosen, made) && total + f.size <= maxUnpacked
    requires w.tree.File? && w.path != [] && |w.tree.bytes| == f.size
    ensures Accounted(seen + {Fold(f.path)}, total + f.size, maxUnpacked, chosen + [f], made + [w])
  {
    FoldsGrow(chosen, f);
    TotalsGrow(chosen, made, f, w);
  }

  lemma GoodFile(e: ArchiveEntry, files: seq<PackageFile>, digest: Bytes -> string, f: PackageFile)
    requires CheckPath(Trimmed(e.name)) && PlainMode(e.mode) && !IsDirectory(e) && f in files && Carries(e, f, digest)
    ensures Good(e, files, digest)
  {
    var k :| 0 <= k < |files| && files[k] == f;
  }

  lemma UnseenIsNew(chosen: seq<PackageFile>, f: PackageFile)
    requires Fold(f.path) !in Folds(chosen)
    ensures forall m | 0 <= m < |chosen| :: chosen[m].path != f.path
  {
    forall m | 0 <= m < |chosen| ensures chosen[m].path != f.path {
      assert chosen[m] in FileSet(chosen) && Key(chosen[m], true) in Folds(chosen);
    }
  }

  lemma TotalsGrow(chosen: seq<PackageFile>, made: seq<Placed>, f: PackageFile, w: Placed)
    requires OnlyFiles(made) && w.tree.File? && w.path != []
    ensures TotalSize(chosen + [f]) == TotalSize(chosen) + f.size
    ensures OnlyFiles(made + [w]) && TotalBytes(made + [w]) == TotalBytes(made) + |w.tree.bytes|
  {
    assert (chosen + [f])[..|chosen|] == chosen && (made + [w])[..|made|] == made;
  }

  lemma FoldsGrow(chosen: seq<PackageFile>, f: PackageFile)
    ensures Folds(chosen + [f]) == Folds(chosen) + {Fold(f.path)}
  {
    assert FileSet(chosen + [f]) == FileSet(chosen) + {f};
    assert Keys(FileSet(chosen) + {f}, true) == Keys(FileSet(chosen), true) + {Key(f, true)};
  }

  /** More chosen than may be unpacked is more declared than may be unpacked. */
  lemma TooMuch(stage: Tree, entries: seq<ArchiveEntry>, files: seq<PackageFile>, digest: Bytes -> string,
                maxUnpacked: u64,
                k: nat, seen: set<string>, total: u64, t: Trace, f: PackageFile)
    requires ValidInventory(files) && Looping(stage, entries, files, digest, maxUnpacked, k, seen, total, t)
    requires f in files && Fold(f.path) !in seen && total + f.size > maxUnpacked
    ensures !Extractable(entries, files, digest, maxUnpacked)
  {
    forall m | 0 <= m < |t.chosen|
      ensures t.chosen[m] in files
    { assert Taken(entries[t.from[m]], t.chosen[m], t.made[m], files); }
    UnseenIsApart(files, t.chosen, f);
    assert (t.chosen + [f])[..|t.chosen|] == t.chosen;
    ChosenTotal(t.chosen + [f], files);
  }

  /** The file entry at `i` has been taken, as the only declared file of its name. */
  lemma TakenAs(entries: seq<ArchiveEntry>, files: seq<PackageFile>, k: nat, t: Trace, i: nat, f: PackageFile)
    returns (m: nat)
    requires ValidInventory(files) && Choices(entries, files, k, t.from, t.chosen, t.made)
    requires i < k && !IsDirectory(entries[i]) && f in files && entries[i].name == f.path
    ensures m < |t.from| && t.from[m] == i && t.chosen[m] == f && Taken(entries[i], f, t.made[m], files)
  {
    assert i in t.from;
    m :| 0 <= m < |t.from| && t.from[m] == i;
    assert Taken(entries[t.from[m]], t.chosen[m], t.made[m], files);
    SameFoldSameFile(files, t.chosen[m], f);
  }

  lemma NamesDistinct(entries: seq<ArchiveEntry>, files: seq<PackageFile>, t: Trace, i: nat, j: nat)
    requires Choices(entries, files, |entries|, t.from, t.chosen, t.made)
    requires i < j < |entries| && !IsDirectory(entries[i]) && !IsDirectory(entries[j])
    ensures entries[i].name != entries[j].name
  {
    assert i in t.from && j in t.from;
    var a :| 0 <= a < |t.from| && t.from[a] == i;
    var b :| 0 <= b < |t.from| && t.from[b] == j;
    assert Taken(entries[t.from[a]], t.chosen[a], t.made[a], files);
    assert Taken(entries[t.from[b]], t.chosen[b], t.made[b], files);
  }

  lemma ChosenPresent(entries: seq<ArchiveEntry>, files: seq<PackageFile>, t: Trace, f: PackageFile)
    requires Choices(entries, files, |entries|, t.from, t.chosen, t.made) && f in t.chosen
    ensures f in files && Present(entries, f.path)
  {
    var m :| 0 <= m < |t.chosen| && t.chosen[m] == f;
    assert Taken(entries[t.from[m]], t.chosen[m], t.made[m], files);
  }

  lemma AllChosenTotal(files: seq<PackageFile>, chosen: seq<PackageFile>)
    requires ValidInventory(files) && FileSet(chosen) == FileSet(files)
    ensures TotalSize(files) <= TotalSize(chosen)
  {
    DistinctPaths(files);
    forall k | 0 <= k < |files| ensures files[k] in chosen { assert files[k] in FileSet(chosen); }
    ChosenTotal(files, chosen);
  }

  lemma ExtractableChosen(entries: seq<ArchiveEntry>, files: seq<PackageFile>, digest: Bytes -> string,
                          maxUnpacked: u64, t: Trace, f: PackageFile)
    requires ValidInventory(files) && Extracted(entries, files, digest, |entries|, t.from, t.chosen, t.made)
    requires Extractable(entries, files, digest, maxUnpacked) && f in files
    ensures f in t.chosen
  {
    var k :| 0 <= k < |files| && files[k] == f;
    assert Present(entries, files[k].path);
    var i :| 0 <= i < |entries| && !IsDirectory(entries[i]) && entries[i].name == f.path;
    var m := TakenAs(entries, files, |entries|, t, i, f);
  }

  lemma AllChosenExtractable(entries: seq<ArchiveEntry>, files: seq<PackageFile>, digest: Bytes -> string,
                             maxUnpacked: u64, t: Trace)
    requires Extracted(entries, files, digest, |entries|, t.from, t.chosen, t.made) && |entries| <= MAX_ENTRIES
    requires FileSet(t.chosen) == FileSet(files) && TotalSize(files) <= maxUnpacked
    ensures Extractable(entries, files, digest, maxUnpacked)
  {
    forall k | 0 <= k < |files| ensures Present(entries, files[k].path) {
      assert files[k] in FileSet(t.chosen);
      ChosenPresent(entries, files, t, files[k]);
    }
    forall i, j | 0 <= i < j < |entries| && !IsDirectory(entries[i]) && !IsDirectory(entries[j])
      ensures entries[i].name != entries[j].name
    { NamesDistinct(entries, files, t, i, j); }
  }

  /** After the last entry, all declared files have been chosen if and only if the archive is good. */
  lemma AllChosenIff(stage: Tree, entries: seq<ArchiveEntry>, files: seq<PackageFile>, digest: Bytes -> string,
                     maxUnpacked: u64,
                     seen: set<string>, total: u64, t: Trace)
    requires ValidInventory(files) && Looping(stage, entries, files, digest, maxUnpacked, |entries|, seen, total, t)
    requires |entries| <= MAX_ENTRIES
    ensures FileSet(t.chosen) <= FileSet(files)
    ensures FileSet(t.chosen) == FileSet(files) <==> Extractable(entries, files, digest, maxUnpacked)
  {
    forall f | f in FileSet(t.chosen) ensures f in FileSet(files) { ChosenPresent(entries, files, t, f); }
    if FileSet(t.chosen) == FileSet(files) {
      AllChosenTotal(files, t.chosen);
      AllChosenExtractable(entries, files, digest, maxUnpacked, t);
    } else if Extractable(entries, files, digest, maxUnpacked) {
      forall f | f in FileSet(files)
        ensures f in FileSet(t.chosen)
      { ExtractableChosen(entries, files, digest, maxUnpacked, t, f); }
      assert false;
    }
  }

  lemma AllDelivered(stage: Tree, entries: seq<ArchiveEntry>, files: seq<PackageFile>, digest: Bytes -> string,
                     maxUnpacked: u64,
                     seen: set<string>, total: u64, t: Trace)
    requires ValidInventory(files) && Looping(stage, entries, files, digest, maxUnpacked, |entries|, seen, total, t)
    ensures Delivered(entries, files, stage)
  {
    forall i, k | 0 <= i < |entries| && 0 <= k < |files| && !IsDirectory(entries[i]) && entries[i].name == files[k].path
      ensures At(stage, FilePath(files[k])) == Some(File(entries[i].data, files[k].executable))
    {
      var m := TakenAs(entries, files, |entries|, t, i, files[k]);
    }
    forall q: Path | FileAt(stage, q).Some? ensures exists k :: 0 <= k < |files| && FilePath(files[k]) == q {
      var m :| 0 <= m < |t.made| && t.made[m].path == q;
      assert Taken(entries[t.from[m]], t.chosen[m], t.made[m], files);
      var k :| 0 <= k < |files| && files[k] == t.chosen[m];
    }
  }

  lemma LoopStarts(entries: seq<ArchiveEntry>, files: seq<PackageFile>, digest: Bytes -> string, maxUnpacked: u64)
    ensures Looping(Dir(map[]), entries, files, digest, maxUnpacked, 0, {}, 0, Trace([], [], []))
    ensures Limited(Dir(map[]), files, maxUnpacked, [])
  {
    assert Folds([]) == {};
  }

  lemma LoopEnds(stage: Tree, entries: seq<ArchiveEntry>, files: seq<PackageFile>, digest: Bytes -> string,
                 maxUnpacked: u64,
                 seen: set<string>, total: u64, t: Trace)
    requires ValidInventory(files) && Looping(stage, entries, files, digest, maxUnpacked, |entries|, seen, total, t)
    requires |entries| <= MAX_ENTRIES
    ensures Limited(stage, files, maxUnpacked, t.made) && Delivered(entries, files, stage)
    ensures |seen| == |Inventory(files)| <==> Extractable(entries, files, digest, maxUnpacked)
  {
    LoopingIsLimited(stage, entries, files, digest, maxUnpacked, |entries|, seen, total, t);
    AllChosenIff(stage, entries, files, digest, maxUnpacked, seen, total, t);
    CountingIsComplete(files, t.chosen);
    AllDelivered(stage, entries, files, digest, maxUnpacked, seen, total, t);
  }

  /** One round of the loop. */
  method ExtractNext(stage: FileStore, entries: seq<ArchiveEntry>, files: seq<PackageFile>,
                     expected: map<string, PackageFile>,
                     digest: Bytes -> string, maxUnpacked: u64, k: nat, seen0: set<string>, total0: u64,
                     ghost t0: Trace)
    returns (o: Outcome, seen: set<string>, total: u64, ghost t: Trace)
    requires ValidInventory(files) && expected == Inventory(files) && k < |entries|
    requires Looping(stage.tree, entries, files, digest, maxUnpacked, k, seen0, total0, t0)
    modifies stage
    ensures Limited(stage.tree, files, maxUnpacked, t.made)
    ensures o.Ok? ==> Looping(stage.tree, entries, files, digest, maxUnpacked, k + 1, seen, total, t)
    ensures stage.reliable ==> !o.Crashed? && (o.Err? ==> !Extractable(entries, files, digest, maxUnpacked))
  {
    seen, total, t := seen0, total0, t0;
    LoopingIsLimited(stage.tree, entries, files, digest, maxUnpacked, k, seen, total, t);
    o := Fault(stage.reliable);
    if !o.Ok? { return; }
    var admitted := Admit(entries[k], files, expected, digest);
    if admitted.Failure? { o := Err(admitted.error); return; }
    if admitted.value == None {
      DirectoryTaken(entries, files, digest, k, t.from, t.chosen, t.made);
      return;
    }
    var f := admitted.value.value;
    if Fold(f.path) in seen {
      SeenMeansRepeated(entries, files, digest, k, t.from, t.chosen, t.made, f, maxUnpacked);
      o := Err(Invalid);
      return;
    }
    if total + f.size >= 0x1_0000_0000_0000_0000 || total + f.size > maxUnpacked {
      TooMuch(stage.tree, entries, files, digest, maxUnpacked, k, seen, total, t, f);
      o := Err(SizeLimit);
      return;
    }
    IntactIffGood(entries[k], files, digest, f);
    o, t := ExtractFile(stage, entries, files, digest, maxUnpacked, k, seen, total, t, f);
    seen, total := seen + {Fold(f.path)}, total + f.size;
  }

  lemma IntactIffGood(e: ArchiveEntry, files: seq<PackageFile>, digest: Bytes -> string, f: PackageFile)
    requires ValidInventory(files) && f in files && !IsDirectory(e) && e.name == f.path
    ensures Good(e, files, digest) ==> Intact(f, e.data, digest)
  {
    if Good(e, files, digest) { CarriesItsFile(e, files, digest, f); }
  }

  /** The tests made before anything is written: nothing for a directory, the declared file for a
      file entry. */
  method Admit(e: ArchiveEntry, files: seq<PackageFile>, expected: map<string, PackageFile>, digest: Bytes -> string)
    returns (r: Result<Option<PackageFile>>)
    requires ValidInventory(files) && expected == Inventory(files)
    ensures r.Failure? ==> !Good(e, files, digest)
    ensures r == Success(None) ==> IsDirectory(e) && Good(e, files, digest)
    ensures r.Success? && r.value.Some? ==>
              var f := r.value.value;
              && !IsDirectory(e) && CheckPath(Trimmed(e.name)) && PlainMode(e.mode)
              && f in files && e.name == f.path && e.size == f.size
  {
    var path := Trimmed(e.name);
    if !CheckPath(path) { return Failure(UnsafePath); }
    if !PlainMode(e.mode) { return Failure(Invalid); }
    Unlisted(files, expected, e, digest);
    if IsDirectory(e) {
      if !exists key | key in expected :: SlashAncestor(path, key) { return Failure(Invalid); }
      return Success(None);
    }
    if path !in expected || e.size != expected[path].size { return Failure(Invalid); }
    return Success(Some(expected[path]));
  }

  method ExtractFile(stage: FileStore, entries: seq<ArchiveEntry>, files: seq<PackageFile>, digest: Bytes -> string,
                     maxUnpacked: u64,
                     k: nat, ghost seen: set<string>, ghost total: u64, ghost t0: Trace, f: PackageFile)
    returns (o: Outcome, ghost t: Trace)
    requires ValidInventory(files) && k < |entries|
    requires Looping(stage.tree, entries, files, digest, maxUnpacked, k, seen, total, t0)
    requires f in files && !IsDirectory(entries[k]) && entries[k].name == f.path && entries[k].size == f.size
    requires PlainMode(entries[k].mode) && Fold(f.path) !in seen && total + f.size <= maxUnpacked
    modifies stage
    ensures Limited(stage.tree, files, maxUnpacked, t.made)
    ensures o.Ok? ==>
              Looping(stage.tree, entries, files, digest, maxUnpacked, k + 1, seen + {Fold(f.path)}, total + f.size, t)
    ensures stage.reliable ==> !o.Crashed? && (o.Err? ==> !Intact(f, entries[k].data, digest))
  {
    ghost var before := stage.tree;
    LoopingIsLimited(stage.tree, entries, files, digest, maxUnpacked, k, seen, total, t0);
    forall m | 0 <= m < |t0.chosen| ensures t0.chosen[m] in files && t0.made[m].path == FilePath(t0.chosen[m]) {
      assert Taken(entries[t0.from[m]], t0.chosen[m], t0.made[m], files);
    }
    UnseenIsApart(files, t0.chosen, f);
    ghost var made;
    o, made := UnpackEntry(stage, entries[k], f, digest, files, t0.made);
    t := Trace(t0.from, t0.chosen, made);
    PartLimited(stage.tree, files, maxUnpacked, t0.made, made, f);
    if o.Ok? {
      ghost var w := Placed(FilePath(f), File(entries[k].data, f.executable));
      LoopedOnce(before, stage.tree, entries, files, digest, maxUnpacked, k, seen, total, t0, f, w);
      t := Trace(t0.from + [k], t0.chosen + [f], made);
    }
  }

  lemma Listed(files: seq<PackageFile>, expected: map<string, PackageFile>, path: string)
    requires ValidInventory(files) && expected == Inventory(files)
    ensures AboveDeclared(path, files) <==> exists key :: key in expected && SlashAncestor(path, key)
  {
    if AboveDeclared(path, files) {
      var k :| 0 <= k < |files| && SlashAncestor(path, files[k].path);
      assert files[k].path in expected;
    }
  }

  /** What the lookup in the inventory decides about an entry. */
  lemma Unlisted(files: seq<PackageFile>, expected: map<string, PackageFile>, e: ArchiveEntry, digest: Bytes -> string)
    requires ValidInventory(files) && expected == Inventory(files) && CheckPath(Trimmed(e.name)) && PlainMode(e.mode)
    ensures IsDirectory(e) ==>
              (Good(e, files, digest) <==> exists key :: key in expected && SlashAncestor(Trimmed(e.name), key))
    ensures !IsDirectory(e) ==> (Good(e, files, digest) <==> e.name in expected && Carries(e, expected[e.name], digest))
  {
    Listed(files, expected, Trimmed(e.name));
    if !IsDirectory(e) && Good(e, files, digest) {
      var k :| 0 <= k < |files| && Carries(e, files[k], digest);
      SameFoldSameFile(files, files[k], expected[e.name]);
    }
    if !IsDirectory(e) && e.name in expected {
      var k :| 0 <= k < |files| && files[k] == expected[e.name];
    }
  }

  /** Uninterrupted, extraction succeeds on exactly the extractable archives and delivers what they
      carry; at whatever moment it stops, no file exceeds its declared size and all of them
      together do not exceed the limit. */
  method Extract(stage: FileStore, entries: seq<ArchiveEntry>, files: seq<PackageFile>, digest: Bytes -> string,
                 maxUnpacked: u64)
    returns (o: Outcome, ghost made: seq<Placed>)
    requires ValidInventory(files) && stage.tree == Dir(map[])
    modifies stage
    ensures Limited(stage.tree, files, maxUnpacked, made)
    ensures o.Ok? ==> Extractable(entries, files, digest, maxUnpacked) && Delivered(entries, files, stage.tree)
    ensures stage.reliable ==> !o.Crashed? && (o.Ok? <==> Extractable(entries, files, digest, maxUnpacked))
    ensures o.Ok? ==> |entries| <= 200_000 && forall e | e in entries :: e.mode / 0x1000 % 0x10 in {0, 4, 8}
  {
    var expected := Inventory(files);
    made := [];
    LoopStarts(entries, files, digest, maxUnpacked);
    o := Fault(stage.reliable);
    if !o.Ok? { return; }
    if |entries| > MAX_ENTRIES { o := Err(SizeLimit); return; }
    var seen: set<string>, total: u64 := {}, 0;
    ghost var t := Trace([], [], []);
    var k := 0;
    while k < |entries|
      invariant 0 <= k <= |entries| && o.Ok?
      invariant Looping(stage.tree, entries, files, digest, maxUnpacked, k, seen, total, t)
    {
      o, seen, total, t := ExtractNext(stage, entries, files, expected, digest, maxUnpacked, k, seen, total, t);
      made := t.made;
      if !o.Ok? { return; }
      k := k + 1;
    }
    made := t.made;
    LoopEnds(stage.tree, entries, files, digest, maxUnpacked, seen, total, t);
    if |seen| != |expected| { o := Err(Invalid); return; }
  }

  /** A delivered archive makes a stage that passes the installer's own verification. */
  lemma DeliveredIsVerified(plan: Plan, entries: seq<ArchiveEntry>, maxUnpacked: u64, stage: Tree)
    requires Extractable(entries, plan.files, plan.digest, maxUnpacked) && Delivered(entries, plan.files, stage)
    requires ValidInventory(plan.files)
    ensures VerifiedStage(plan, stage)
  {
    hide Extractable, ValidInventory, Matches, FilePath;
    forall k | 0 <= k < |plan.files| ensures Matches(plan, plan.files[k], At(stage, FilePath(plan.files[k]))) {
      DeliveredMatches(plan, entries, maxUnpacked, stage, k);
    }
  }

  lemma DeliveredMatches(plan: Plan, entries: seq<ArchiveEntry>, maxUnpacked: u64, stage: Tree, k: nat)
    requires Extractable(entries, plan.files, plan.digest, maxUnpacked) && Delivered(entries, plan.files, stage)
    requires ValidInventory(plan.files) && k < |plan.files|
    ensures Matches(plan, plan.files[k], At(stage, FilePath(plan.files[k])))
  {
    assert Present(entries, plan.files[k].path);
    var i :| 0 <= i < |entries| && !IsDirectory(entries[i]) && entries[i].name == plan.files[k].path;
    CarriesItsFile(entries[i], plan.files, plan.digest, plan.files[k]);
  }

  lemma CarriesItsFile(e: ArchiveEntry, files: seq<PackageFile>, digest: Bytes -> string, f: PackageFile)
    requires ValidInventory(files) && Good(e, files, digest) && !IsDirectory(e) && f in files && e.name == f.path
    ensures Carries(e, f, digest)
  {
    var c :| 0 <= c < |files| && Carries(e, files[c], digest);
    SameFoldSameFile(files, files[c], f);
  }

  // ---------------------------------------------------------------------------
  // What is extracted, in plain terms

  /** Above a declared file: its path goes on with a slash. */
  lemma AboveDeclaredIff(path: string, files: seq<PackageFile>)
    ensures AboveDeclared(path, files) <==> exists f, rest :: f in files && f.path == path + "/" + rest
  {
    if AboveDeclared(path, files) {
      var k :| 0 <= k < |files| && SlashAncestor(path, files[k].path);
      assert files[k] in files && files[k].path == path + "/" + files[k].path[|path| + 1..];
    }
    if f, rest :| f in files && f.path == path + "/" + rest {
      var k :| 0 <= k < |files| && files[k] == f;
      assert SlashAncestor(path, files[k].path);
    }
  }

  /** A directory entry with its slash, above a declared file, is always admitted. */
  lemma DirectoryIsGood(e: ArchiveEntry, dir: string, files: seq<PackageFile>, digest: Bytes -> string)
    requires ValidInventory(files) && (exists f, rest :: f in files && f.path == dir + "/" + rest)
    requires e.name == dir + "/" && e.mode / 0x1000 % 0x10 in {0, 4, 8}
    ensures IsDirectory(e) && Good(e, files, digest)
  {
    AboveDeclaredIff(dir, files);
    var f, rest :| f in files && f.path == dir + "/" + rest;
    CheckPathJoin(dir, rest);
    NoTrailingSlash(dir);
    assert e.name[..|e.name| - 1] == dir;
  }

  lemma NoTrailingSlash(path: string)
    ensures path != "" && path[|path| - 1] == '/' ==> !CheckPath(path)
  {
    if path != "" && path[|path| - 1] == '/' {
      var rest := path[..|path| - 1];
      assert path == rest + "/" + "";
      SplitAppend(rest, "");
      assert Split(path)[|Split(rest)|] == "";
      assert !ValidPart(Split(path)[|Split(rest)|]);
    }
  }

  /** Directory entries above declared files, wherever they stand in the archive, make no difference
      but to the number of entries: neither to success nor to what is delivered. */
  lemma DirectoryEntryIsHarmless(entries: seq<ArchiveEntry>, at: nat, e: ArchiveEntry, dir: string,
                                 files: seq<PackageFile>, digest: Bytes -> string, maxUnpacked: u64, stage: Tree)
    requires ValidInventory(files) && at <= |entries| && |entries| + 1 <= 200_000
    requires e.name == dir + "/" && e.mode / 0x1000 % 0x10 in {0, 4, 8}
    requires exists f, rest :: f in files && f.path == dir + "/" + rest
    ensures var more := entries[..at] + [e] + entries[at..];
            && (Extractable(more, files, digest, maxUnpacked) <==> Extractable(entries, files, digest, maxUnpacked))
            && (Delivered(more, files, stage) <==> Delivered(entries, files, stage))
  {
    DirectoryIsGood(e, dir, files, digest);
    var more := entries[..at] + [e] + entries[at..];
    assert Inserted(entries, at, e, more);
    hide Good, IsDirectory, ValidInventory, Extractable, Delivered, Inserted;
    ExtractableInserted(entries, at, e, more, files, digest, maxUnpacked);
    DeliveredInserted(entries, at, e, more, files, stage);
  }

  lemma ExtractableInserted(entries: seq<ArchiveEntry>, at: nat, e: ArchiveEntry, more: seq<ArchiveEntry>,
                            files: seq<PackageFile>, digest: Bytes -> string, maxUnpacked: u64)
    requires Inserted(entries, at, e, more) && |more| <= 200_000 && Good(e, files, digest) && IsDirectory(e)
    ensures Extractable(more, files, digest, maxUnpacked) <==> Extractable(entries, files, digest, maxUnpacked)
  {
    hide Good, IsDirectory, Present, TotalSize;
    GoodInserted(entries, at, e, more, files, digest);
    OnceInserted(entries, at, e, more);
    PresentInserted(entries, at, e, more, files);
  }

  predicate Inserted<T(==)>(s: seq<T>, at: nat, x: T, t: seq<T>) {
    && at <= |s| && |t| == |s| + 1 && t[at] == x
    && (forall i | 0 <= i < at :: t[i] == s[i])
    && (forall i | at <= i < |s| :: t[i + 1] == s[i])
  }

  lemma GoodInserted(entries: seq<ArchiveEntry>, at: nat, e: ArchiveEntry, more: seq<ArchiveEntry>,
                     files: seq<PackageFile>, digest: Bytes -> string)
    requires Inserted(entries, at, e, more) && Good(e, files, digest)
    ensures (forall i | 0 <= i < |more| :: Good(more[i], files, digest))
            <==> forall i | 0 <= i < |entries| :: Good(entries[i], files, digest)
  {
    hide Good;
    if forall i | 0 <= i < |more| :: Good(more[i], files, digest) {
      forall i | 0 <= i < |entries| ensures Good(entries[i], files, digest) {
        assert Good(more[if i < at then i else i + 1], files, digest);
      }
    }
    if forall i | 0 <= i < |entries| :: Good(entries[i], files, digest) {
      forall i | 0 <= i < |more| && i != at ensures Good(more[i], files, digest) {
        assert Good(entries[if i < at then i else i - 1], files, digest);
      }
    }
  }

  predicate EachOnce(entries: seq<ArchiveEntry>) {
    forall i, j | 0 <= i < j < |entries| && !IsDirectory(entries[i]) && !IsDirectory(entries[j]) ::
      entries[i].name != entries[j].name
  }

  lemma OnceInserted(entries: seq<ArchiveEntry>, at: nat, e: ArchiveEntry, more: seq<ArchiveEntry>)
    requires Inserted(entries, at, e, more) && IsDirectory(e)
    ensures EachOnce(more) <==> EachOnce(entries)
  {
    hide IsDirectory;
    if EachOnce(more) {
      forall i, j | 0 <= i < j < |entries| && !IsDirectory(entries[i]) && !IsDirectory(entries[j])
        ensures entries[i].name != entries[j].name
      {
        var i', j' := if i < at then i else i + 1, if j < at then j else j + 1;
        assert more[i'] == entries[i] && more[j'] == entries[j];
      }
    }
    if EachOnce(entries) {
      forall i, j | 0 <= i < j < |more| && !IsDirectory(more[i]) && !IsDirectory(more[j])
        ensures more[i].name != more[j].name
      {
        var i', j' := if i < at then i else i - 1, if j < at then j else j - 1;
        assert entries[i'] == more[i] && entries[j'] == more[j];
      }
    }
  }

  lemma PresentInserted(entries: seq<ArchiveEntry>, at: nat, e: ArchiveEntry, more: seq<ArchiveEntry>,
                        files: seq<PackageFile>)
    requires Inserted(entries, at, e, more) && IsDirectory(e)
    ensures forall k | 0 <= k < |files| :: Present(more, files[k].path) <==> Present(entries, files[k].path)
  {
    hide IsDirectory;
    forall k | 0 <= k < |files| ensures Present(more, files[k].path) <==> Present(entries, files[k].path) {
      var path := files[k].path;
      if Present(entries, path) {
        var i :| 0 <= i < |entries| && !IsDirectory(entries[i]) && entries[i].name == path;
        assert more[if i < at then i else i + 1] == entries[i];
      }
      if Present(more, path) {
        var i :| 0 <= i < |more| && !IsDirectory(more[i]) && more[i].name == path;
        assert entries[if i < at then i else i - 1] == more[i];
      }
    }
  }

  lemma DeliveredInserted(entries: seq<ArchiveEntry>, at: nat, e: ArchiveEntry, more: seq<ArchiveEntry>,
                          files: seq<PackageFile>, stage: Tree)
    requires Inserted(entries, at, e, more) && IsDirectory(e)
    ensures Delivered(more, files, stage) <==> Delivered(entries, files, stage)
  {
    hide IsDirectory, FilePath, At;
    if Delivered(entries, files, stage) {
      forall i, k | 0 <= i < |more| && 0 <= k < |files| && !IsDirectory(more[i]) && more[i].name == files[k].path
        ensures At(stage, FilePath(files[k])) == Some(File(more[i].data, files[k].executable))
      { assert entries[if i < at then i else i - 1] == more[i]; }
    }
    if Delivered(more, files, stage) {
      forall i, k |
        0 <= i < |entries| && 0 <= k < |files| && !IsDirectory(entries[i]) && entries[i].name == files[k].path
        ensures At(stage, FilePath(files[k])) == Some(File(entries[i].data, files[k].executable))
      { assert more[if i < at then i else i + 1] == entries[i]; }
    }
  }

  /** An archive with a link, or any entry that is neither a regular file nor a directory, is refused. */
  lemma OtherTypesAreRefused(entries: seq<ArchiveEntry>, e: ArchiveEntry, files: seq<PackageFile>,
                             digest: Bytes -> string, maxUnpacked: u64)
    requires e in entries && e.mode / 0x1000 % 0x10 !in {0, 4, 8}
    ensures !Extractable(entries, files, digest, maxUnpacked)
  {
    var i :| 0 <= i < |entries| && entries[i] == e;
    assert !Good(entries[i], files, digest);
  }

  lemma TotalAppend(files: seq<PackageFile>, f: PackageFile)
    ensures TotalSize([]) == 0 && TotalSize(files + [f]) == TotalSize(files) + f.size
  {
    assert (files + [f])[..|files|] == files;
  }

  /** One entry of an archive that is extracted: a directory above a declared file, or the content
      of a declared file; no link, no special file. */
  ghost predicate EntryAllowed(e: ArchiveEntry, files: seq<PackageFile>, digest: Bytes -> string) {
    && e.mode / 0x1000 % 0x10 in {0, 4, 8}
    && if exists dir :: e.name == dir + "/" then
         exists f, rest :: f in files && f.path == Trimmed(e.name) + "/" + rest
       else
         exists f :: f in files && e.name == f.path && e.size == f.size == |e.data|
                     && SameButCase(digest(e.data), f.sha256)
  }

  lemma IsDirectoryIff(e: ArchiveEntry)
    ensures IsDirectory(e) <==> exists dir :: e.name == dir + "/"
  {
    if IsDirectory(e) { assert e.name == e.name[..|e.name| - 1] + "/"; }
  }

  lemma GoodIff(e: ArchiveEntry, files: seq<PackageFile>, digest: Bytes -> string)
    requires ValidInventory(files)
    ensures Good(e, files, digest) <==> EntryAllowed(e, files, digest)
  {
    IsDirectoryIff(e);
    if IsDirectory(e) {
      AboveDeclaredIff(Trimmed(e.name), files);
      if f, rest :| f in files && f.path == Trimmed(e.name) + "/" + rest {
        var k :| 0 <= k < |files| && files[k] == f;
        assert CheckPath(files[k].path);
        CheckPathJoin(Trimmed(e.name), rest);
      }
    } else {
      forall f | f in files ensures Intact(f, e.data, digest) <==>
        |e.data| == f.size && SameButCase(digest(e.data), f.sha256)
      { IntactIff(f, e.data, digest); }
      if f :| f in files && e.name == f.path && e.size == f.size == |e.data| && SameButCase(digest(e.data), f.sha256) {
        var k :| 0 <= k < |files| && files[k] == f;
        assert CheckPath(files[k].path) && Carries(e, files[k], digest);
      }
    }
  }

  /** Which archives are extracted: all entries admissible, every declared file carried exactly once,
      and all within the limits. */
  lemma ExtractableIff(entries: seq<ArchiveEntry>, files: seq<PackageFile>, digest: Bytes -> string,
                       maxUnpacked: u64)
    requires ValidInventory(files)
    ensures Extractable(entries, files, digest, maxUnpacked) <==>
              && |entries| <= 200_000 && TotalSize(files) <= maxUnpacked
              && (forall i | 0 <= i < |entries| :: EntryAllowed(entries[i], files, digest))
              && (forall k | 0 <= k < |files| :: exists i :: 0 <= i < |entries| && entries[i].name == files[k].path)
              && (forall i, j | 0 <= i < j < |entries| && entries[i].name == entries[j].name ::
                    exists dir :: entries[i].name == dir + "/")
  {
    hide Good, EntryAllowed;
    forall i | 0 <= i < |entries|
      ensures Good(entries[i], files, digest) <==> EntryAllowed(entries[i], files, digest)
      ensures IsDirectory(entries[i]) <==> exists dir :: entries[i].name == dir + "/"
    {
      GoodIff(entries[i], files, digest);
      IsDirectoryIff(entries[i]);
    }
    forall k | 0 <= k < |files|
      ensures Present(entries, files[k].path)
              <==> exists i :: 0 <= i < |entries| && entries[i].name == files[k].path
    {
      NoTrailingSlash(files[k].path);
      if i :| 0 <= i < |entries| && entries[i].name == files[k].path { assert !IsDirectory(entries[i]); }
    }
  }

  /** However far extraction got, every regular file in the stage is a declared one and no longer
      than declared. */
  lemma LimitedMeans(stage: Tree, files: seq<PackageFile>, maxUnpacked: u64, made: seq<Placed>, q: Path)
    requires Limited(stage, files, maxUnpacked, made) && FileAt(stage, q).Some?
    ensures exists f :: f in files && FilePath(f) == q && |FileAt(stage, q).value.bytes| <= f.size
    ensures exists m :: 0 <= m < |made| && made[m] == Placed(q, FileAt(stage, q).value)
  {
    var i :| 0 <= i < |made| && made[i].path == q;
    assert Bounded(made[i], files);
    var k :| 0 <= k < |files| && made[i].path == FilePath(files[k]) && |made[i].tree.bytes| <= files[k].size;
    assert files[k] in files;
  }
}
