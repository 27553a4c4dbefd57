/** src/fsutil.rs: copying and removing in a mutable file store. Any step may fail or be the
    last one the process executes; a `reliable` store fails only where the tree itself
    makes the operation impossible. */
module FileStores {
  import opened Outcomes
  import opened Trees

  const RETRY_LIMIT_MILLIS: int := 10_000
  const RETRY_PAUSE_MILLIS: int := 200

  /** Exactly when copying `src` to `p` is possible at all. */
  predicate CanCopy(t: Tree, src: Tree, p: Path) {
    CanMake(t, p) && Overlay(At(t, p), src).Some?
  }

  // ---------------------------------------------------------------------------
  // Lemmas about the directories above a path

  lemma {:induction false} MakeDirsIff(t: Tree, p: Path)
    ensures MakeDirs(t, p).Some? <==> CanMake(t, p) && !IsFile(At(t, p))
    decreases |p|
  {
    if p != [] && t.Dir? {
      var child := if p[0] in t.entries then t.entries[p[0]] else Dir(map[]);
      MakeDirsIff(child, p[1..]);
      forall i | 0 < i <= |p| ensures IsFile(At(t, p[..i])) <==> IsFile(At(child, p[1..][..i - 1])) {
        assert p[..i][1..] == p[1..][..i - 1];
      }
      assert p[..|p|] == p && p[1..][..|p| - 1] == p[1..];
      if CanMake(t, p) {
        forall i | 0 <= i < |p| - 1 ensures !IsFile(At(child, p[1..][..i])) { assert !IsFile(At(t, p[..i + 1])); }
      }
      if CanMake(child, p[1..]) && !IsFile(At(child, p[1..])) {
        forall i | 0 <= i < |p| ensures !IsFile(At(t, p[..i])) {
          if i > 0 { assert !IsFile(At(child, p[1..][..i - 1])); }
        }
      }
    } else if p != [] {
      assert IsFile(At(t, p[..0]));
    }
  }

  /** Making directories down to `r` shows at paths beneath `r` only as emptiness. */
  lemma MakeDirsAbove(t: Tree, r: Path, p: Path)
    requires r <= p && MakeDirs(t, r).Some?
    ensures OnlyAt(t, MakeDirs(t, r).value, p)
    ensures r < p ==> At(MakeDirs(t, r).value, p) == At(t, p)
  {
    var t' := MakeDirs(t, r).value;
    MakeDirsOnlyAt(t, r);
    forall q: Path ensures Kept(t, t', p, q) && (r < q ==> At(t', q) == At(t, q)) {
      assert Kept(t, t', r, q);
      if r <= q {
        assert q == r + q[|r|..];
        AtAppend(t, r, q[|r|..]);
        AtAppend(t', r, q[|r|..]);
        MakeDirsKept(t, r, q);
      }
    }
    assert Kept(t, t', p, p);
  }

  /** `create_dir_all(p)` got as far as some directory above `p`, or to `p` itself. */
  predicate SomeDirsMade(t: Tree, t': Tree, p: Path) {
    t' == t || exists i :: 0 <= i <= |p| && Some(t') == MakeDirs(t, p[..i])
  }

  lemma SomeDirsMadeFrame(t: Tree, t': Tree, p: Path, dest: Path)
    requires SomeDirsMade(t, t', p) && p <= dest
    ensures OnlyAt(t, t', dest)
    ensures At(t', dest) == At(t, dest) || (p == dest && At(t, dest) == None && At(t', dest) == Some(Dir(map[])))
  {
    OnlyAtRefl(t, dest);
    if t' != t {
      var i :| 0 <= i <= |p| && Some(t') == MakeDirs(t, p[..i]);
      MakeDirsAbove(t, p[..i], dest);
      if i == |dest| {
        assert p[..i] == dest;
        MakeDirsKept(t, dest, dest);
      } else {
        assert p[..i] == dest[..i] && p[..i] < dest;
      }
    }
  }

  lemma CanMakeStable(t: Tree, t': Tree, p: Path)
    requires OnlyAt(t, t', p)
    ensures CanMake(t', p) == CanMake(t, p)
  {
    forall i | 0 <= i < |p| ensures IsFile(At(t', p[..i])) == IsFile(At(t, p[..i])) {
      assert Kept(t, t', p, p[..i]);
    }
  }

  /** Everything above an existing node is a directory. */
  lemma ExistingCanMake(t: Tree, p: Path)
    requires At(t, p).Some?
    ensures CanMake(t, p)
  {
    forall i | 0 <= i < |p| ensures !IsFile(At(t, p[..i])) {
      if IsFile(At(t, p[..i])) { AtBeneath(t, p[..i], p); }
    }
  }

  lemma PutIff(t: Tree, p: Path, x: Tree)
    requires p != []
    ensures Put(t, p, x).Some? <==> MakeDirs(t, p[..|p| - 1]).Some?
    decreases |p|
  {
    if |p| > 1 && t.Dir? {
      assert p[..|p| - 1][1..] == p[1..][..|p| - 2];
      PutIff(if p[0] in t.entries then t.entries[p[0]] else Dir(map[]), p[1..], x);
    }
  }

  lemma ParentIff(t: Tree, p: Path)
    requires p != []
    ensures MakeDirs(t, p[..|p| - 1]).Some? <==> CanMake(t, p)
  {
    var r := p[..|p| - 1];
    MakeDirsIff(t, r);
    forall i | 0 <= i < |r| ensures r[..i] == p[..i] {}
    if CanMake(t, p) {
      assert !IsFile(At(t, p[..|p| - 1]));
      forall i | 0 <= i < |r| ensures !IsFile(At(t, r[..i])) { assert !IsFile(At(t, p[..i])); }
    } else if MakeDirs(t, r).Some? {
      forall i | 0 <= i < |p| ensures !IsFile(At(t, p[..i])) {
        if i < |r| { assert !IsFile(At(t, r[..i])); }
      }
    }
  }

  /** Writing beneath one child of a directory leaves its other children alone. */
  lemma ChildFrame(t: Tree, t': Tree, p: Path, k: string)
    requires IsDir(At(t, p)) && OnlyAt(t, t', p + [k])
    ensures IsDir(At(t', p))
    ensures Replaced(Entries(At(t, p)), Entries(At(t', p)), k)
    ensures Entry(Entries(At(t', p)), k) == At(t', p + [k])
  {
    assert Kept(t, t', p + [k], p);
    ChildAt(t', p, k);
    var m, m' := Entries(At(t, p)), Entries(At(t', p));
    forall j | j != k ensures Entry(m', j) == Entry(m, j) {
      ChildAt(t, p, j);
      ChildAt(t', p, j);
      assert (p + [k])[|p|] == k && (p + [j])[|p|] == j;
      assert Kept(t, t', p + [k], p + [j]);
    }
    assert forall j :: j != k ==> (j in m <==> j in m') && (j in m ==> m[j] == m'[j]) by {
      forall j | j != k
        ensures (j in m <==> j in m') && (j in m ==> m[j] == m'[j])
      { assert Entry(m', j) == Entry(m, j); }
    }
  }

  lemma ChildAt(t: Tree, p: Path, k: string)
    requires IsDir(At(t, p))
    ensures At(t, p + [k]) == Entry(At(t, p).value.entries, k)
  {
    AtAppend(t, p, [k]);
  }

  /** The destination directory while its entries are being copied: `todo` remain. */
  predicate Merging(base: map<string, Tree>, es: map<string, Tree>, todo: set<string>, m: map<string, Tree>) {
    && m.Keys == base.Keys + (es.Keys - todo)
    && forall j | j in m ::
         if j in es && j !in todo then Overlay(Entry(base, j), es[j]) == Some(m[j])
         else j in base && m[j] == base[j]
  }

  predicate Replaced(m: map<string, Tree>, m': map<string, Tree>, k: string) {
    m - {k} == m' - {k}
  }

  lemma MergeStep(base: map<string, Tree>, es: map<string, Tree>, todo: set<string>, k: string,
                  m: map<string, Tree>, m': map<string, Tree>)
    requires Merging(base, es, todo, m) && Replaced(m, m', k)
    requires k in todo && k in es && k in m' && Overlay(Entry(base, k), es[k]) == Some(m'[k])
    ensures Merging(base, es, todo - {k}, m')
  {
    forall j | j in m' && j != k ensures j in m && m'[j] == m[j] { assert j in m' - {k} && (m' - {k})[j] == m'[j]; }
    forall j | j in m && j != k ensures j in m' { assert j in m - {k}; }
  }

  /** A copy stopped inside child `k` leaves the parent in one of its interrupted states. */
  lemma MergeInterrupted(dst: Option<Tree>, es: map<string, Tree>, todo: set<string>, k: string,
                         m: map<string, Tree>, m': map<string, Tree>)
    requires !IsFile(dst) && Merging(Entries(dst), es, todo, m) && Replaced(m, m', k)
    requires k in todo && k in es && Mid(Entry(Entries(dst), k), es[k], Entry(m', k))
    ensures Mid(dst, Dir(es), Some(Dir(m')))
    ensures Overlay(Entry(m, k), es[k]) == None ==> Overlay(dst, Dir(es)) == None
  {
    var base := Entries(dst);
    forall j | j in m' && j != k ensures j in m && m'[j] == m[j] { assert j in m' - {k} && (m' - {k})[j] == m'[j]; }
    forall j | j in m && j != k ensures j in m' { assert j in m - {k}; }
    forall j | j in m'
      ensures if j in es then Mid(Entry(base, j), es[j], Some(m'[j])) else j in base && m'[j] == base[j]
    {
      if j != k && j in es && j !in todo { OverlayIsMid(Entry(base, j), es[j]); }
    }
    assert base.Keys <= m'.Keys <= base.Keys + es.Keys;
    assert Entry(m, k) == Entry(base, k);
  }

  lemma MergeDone(dst: Option<Tree>, es: map<string, Tree>, m: map<string, Tree>)
    requires !IsFile(dst) && Merging(Entries(dst), es, {}, m)
    ensures Overlay(dst, Dir(es)) == Some(Dir(m))
  {
    forall k | k in es ensures k in m && Overlay(Entry(Entries(dst), k), es[k]) == Some(m[k]) {}
    assert Overlay(dst, Dir(es)).value.entries == m;
  }

  /** The name is free and its parent is a directory. */
  predicate CanCreate(t: Tree, p: Path)
    requires p != []
  {
    At(t, p) == None && IsDir(At(t, p[..|p| - 1]))
  }

  lemma CreatePuts(t: Tree, p: Path, x: Tree)
    requires p != [] && CanCreate(t, p)
    ensures Put(t, p, x).Some? && At(Put(t, p, x).value, p) == Some(x)
  {
    var r := p[..|p| - 1];
    ExistingCanMake(t, r);
    MakeDirsIff(t, r);
    PutIff(t, p, x);
    PutAt(t, p, x);
  }

  lemma RewritePuts(t: Tree, p: Path, x: Tree)
    requires p != [] && At(t, p).Some?
    ensures Put(t, p, x).Some? && At(Put(t, p, x).value, p) == Some(x)
  {
    ExistingCanMake(t, p);
    ParentIff(t, p);
    PutIff(t, p, x);
    PutAt(t, p, x);
  }

  // ---------------------------------------------------------------------------

  /** Whether a step goes wrong, and how. */
  method Fault(reliable: bool) returns (o: Outcome)
    ensures reliable ==> o.Ok?
  {
    o := Ok;
    if !reliable {
      if * { o := Err(Io); } else if * { o := Crashed; }
    }
  }

  class FileStore {
    var tree: Tree
    const reliable: bool

    constructor (tree: Tree, reliable: bool)
      ensures this.tree == tree && this.reliable == reliable
    {
      this.tree, this.reliable := tree, reliable;
    }

    method CreateDirAll(p: Path) returns (o: Outcome)
      modifies this
      ensures o.Ok? ==> Some(tree) == MakeDirs(old(tree), p)
      ensures SomeDirsMade(old(tree), tree, p)
      ensures reliable ==> !o.Crashed? && (o.Ok? <==> MakeDirs(old(tree), p).Some?)
    {
      o := Fault(reliable);
      if !o.Ok? {
        var made: int := *;
        if 0 <= made <= |p| && MakeDirs(tree, p[..made]).Some? { tree := MakeDirs(tree, p[..made]).value; }
        return;
      }
      match MakeDirs(tree, p)
      case None => o := Err(Io);
      case Some(made) =>
        tree := made;
        assert p[..|p|] == p;
    }

    /** Copy to a temporary file beside the destination, then rename it into place. */
    method CopyFile(src: Tree, dest: Path) returns (o: Outcome)
      requires src.File? && dest != []
      modifies this
      ensures OnlyAt(old(tree), tree, dest)
      ensures Mid(old(At(tree, dest)), src, At(tree, dest))
      ensures o.Ok? ==> At(tree, dest) == Overlay(old(At(tree, dest)), src) == Some(src)
      ensures reliable ==> !o.Crashed? && (o.Ok? <==> CanCopy(old(tree), src, dest))
    {
      var parent := dest[..|dest| - 1];
      ghost var before := tree;
      ParentIff(tree, dest);
      o := CreateDirAll(parent);
      SomeDirsMadeFrame(before, tree, parent, dest);
      if !o.Ok? { return; }
      o := Fault(reliable);
      if !o.Ok? { return; }
      if IsDir(At(tree, dest)) { return Err(Io); }
      CanMakeStable(before, tree, dest);
      ParentIff(tree, dest);
      PutIff(tree, dest, src);
      PutAt(tree, dest, src);
      PutOnlyAt(tree, dest, src);
      OnlyAtTrans(before, tree, Put(tree, dest, src).value, dest);
      tree := Put(tree, dest, src).value;
      o := Fault(reliable);
    }

    method CopyTree(src: Tree, dest: Path) returns (o: Outcome)
      requires src.File? ==> dest != []
      modifies this
      ensures OnlyAt(old(tree), tree, dest)
      ensures Mid(old(At(tree, dest)), src, At(tree, dest))
      ensures o.Ok? ==> At(tree, dest).Some? && At(tree, dest) == Overlay(old(At(tree, dest)), src)
      ensures reliable ==> !o.Crashed? && (o.Ok? <==> CanCopy(old(tree), src, dest))
      decreases src
    {
      if src.File? {
        o := CopyFile(src, dest);
        return;
      }
      ghost var before, dst := tree, At(tree, dest);
      MakeDirsIff(tree, dest);
      o := CreateDirAll(dest);
      SomeDirsMadeFrame(before, tree, dest, dest);
      if !o.Ok? { return; }
      MakeDirsKept(before, dest, dest);
      var todo := src.entries.Keys;
      while todo != {}
        invariant todo <= src.entries.Keys
        invariant OnlyAt(before, tree, dest) && IsDir(At(tree, dest)) && !IsFile(dst)
        invariant Merging(Entries(dst), src.entries, todo, Entries(At(tree, dest)))
        decreases todo
      {
        var k :| k in todo;
        ghost var t := tree;
        ChildAt(t, dest, k);
        o := CopyTree(src.entries[k], dest + [k]);
        ChildFrame(t, tree, dest, k);
        OnlyAtParent(t, tree, dest, dest + [k]);
        OnlyAtTrans(before, t, tree, dest);
        if !o.Ok? {
          MergeInterrupted(dst, src.entries, todo, k, Entries(At(t, dest)), Entries(At(tree, dest)));
          ChildCanMake(t, dest, k);
          return;
        }
        MergeStep(Entries(dst), src.entries, todo, k, Entries(At(t, dest)), Entries(At(tree, dest)));
        todo := todo - {k};
      }
      MergeDone(dst, src.entries, Entries(At(tree, dest)));
      OverlayIsMid(dst, src);
      o := Fault(reliable);
    }

    /** One more attempt at copying `src` onto what was there in `before`. */
    method CopyAgain(src: Tree, dest: Path, ghost before: Tree) returns (o: Outcome)
      requires dest != [] && OnlyAt(before, tree, dest) && Mid(At(before, dest), src, At(tree, dest))
      modifies this
      ensures OnlyAt(before, tree, dest) && Mid(At(before, dest), src, At(tree, dest))
      ensures o.Ok? ==> At(tree, dest).Some? && At(tree, dest) == Overlay(At(before, dest), src)
      ensures reliable ==> !o.Crashed? && (o.Ok? <==> CanCopy(before, src, dest))
    {
      hide CanMake, OnlyAt, Overlay, Mid;
      ghost var t := tree;
      InterruptedCopyResumes(At(before, dest), src, At(t, dest));
      CanMakeStable(before, t, dest);
      o := CopyTree(src, dest);
      OnlyAtTrans(before, t, tree, dest);
      MidTrans(At(before, dest), src, At(t, dest), At(tree, dest));
    }

    /** The retry loop of `copy_tree_with_retry`, which `apply` also spells out: it does not give up
        on a transient failure before its time is over, and tries again after no other failure. */
    method CopyTreeWithRetry(src: Tree, dest: Path, transient: nat -> bool, late: nat -> nat)
      returns (o: Outcome, ghost tries: nat)
      requires dest != []
      modifies this
      ensures OnlyAt(old(tree), tree, dest)
      ensures Mid(old(At(tree, dest)), src, At(tree, dest))
      ensures o.Ok? ==> At(tree, dest).Some? && At(tree, dest) == Overlay(old(At(tree, dest)), src)
      ensures reliable ==> !o.Crashed? && (o.Ok? <==> CanCopy(old(tree), src, dest))
      ensures 1 <= tries <= 51
      ensures o.Err? ==> !transient(tries - 1) || Slept(200, late, tries - 1) >= 10_000
      ensures forall k: nat | k < tries - 1 :: transient(k) && Slept(200, late, k) < 10_000
    {
      hide CanMake, OnlyAt, Overlay, Mid, CanCopy, Slept;
      SleptOnce(RETRY_PAUSE_MILLIS, late, 0);
      NothingCopied(tree, src, dest);
      var elapsed, failures := 0, 0;
      while true
        invariant OnlyAt(old(tree), tree, dest)
        invariant Mid(old(At(tree, dest)), src, At(tree, dest))
        invariant reliable && elapsed > 0 ==> !CanCopy(old(tree), src, dest)
        invariant elapsed == Slept(RETRY_PAUSE_MILLIS, late, failures) && failures <= 50
        invariant forall k: nat | k < failures :: transient(k) && Slept(200, late, k) < 10_000
        decreases RETRY_LIMIT_MILLIS - elapsed
      {
        o := CopyAgain(src, dest, old(tree));
        tries := failures + 1;
        if !(o.Err? && transient(failures) && elapsed < RETRY_LIMIT_MILLIS) { return; }
        SleptOnce(RETRY_PAUSE_MILLIS, late, failures);
        elapsed := elapsed + RETRY_PAUSE_MILLIS + late(failures);
        failures := failures + 1;
      }
    }

    /** Opening with `create_new`: never an existing name. */
    method CreateNew(p: Path) returns (o: Outcome)
      requires p != []
      modifies this
      ensures tree == old(tree) || (old(CanCreate(tree, p)) && Some(tree) == Put(old(tree), p, File([], false)))
      ensures o.Ok? ==> old(CanCreate(tree, p)) && Some(tree) == Put(old(tree), p, File([], false))
      ensures reliable ==> !o.Crashed? && (o.Ok? <==> old(CanCreate(tree, p)))
    {
      o := Fault(reliable);
      if !o.Ok? { return; }
      if !CanCreate(tree, p) { return Err(Io); }
      CreatePuts(tree, p, File([], false));
      tree := Put(tree, p, File([], false)).value;
      o := Fault(reliable);
    }

    /** `write_all` at the end of an open file; cut short, a part of `chunk` has been written. */
    method Append(p: Path, chunk: Bytes) returns (o: Outcome)
      requires p != [] && IsFile(At(tree, p))
      modifies this
      ensures IsFile(At(tree, p)) && At(tree, p).value.executable == old(At(tree, p).value.executable)
      ensures Some(tree) == Put(old(tree), p, At(tree, p).value)
      ensures exists n :: 0 <= n <= |chunk| && At(tree, p).value.bytes == old(At(tree, p).value.bytes) + chunk[..n]
      ensures o.Ok? ==> At(tree, p).value.bytes == old(At(tree, p).value.bytes) + chunk
      ensures reliable ==> o.Ok?
    {
      o := Fault(reliable);
      var n: int := *;
      if o.Ok? || !(0 <= n < |chunk|) { n := |chunk|; }
      var file := At(tree, p).value;
      var longer := File(file.bytes + chunk[..n], file.executable);
      assert n == |chunk| ==> chunk[..n] == chunk;
      RewritePuts(tree, p, longer);
      tree := Put(tree, p, longer).value;
    }

    /** `set_permissions` followed by `sync_all`. */
    method SetExecutable(p: Path, executable: bool) returns (o: Outcome)
      requires p != [] && IsFile(At(tree, p))
      modifies this
      ensures tree == old(tree) || Some(tree) == Put(old(tree), p, old(At(tree, p)).value.(executable := executable))
      ensures o.Ok? ==> Some(tree) == Put(old(tree), p, old(At(tree, p)).value.(executable := executable))
      ensures reliable ==> o.Ok?
    {
      o := Fault(reliable);
      if !o.Ok? { return; }
      var marked := At(tree, p).value.(executable := executable);
      RewritePuts(tree, p, marked);
      tree := Put(tree, p, marked).value;
      o := Fault(reliable);
    }

    method RemoveTree(p: Path) returns (o: Outcome)
      requires p != []
      modifies this
      ensures OnlyAt(old(tree), tree, p)
      ensures o.Ok? ==> At(tree, p) == None
      ensures match old(At(tree, p))
              case None => tree == old(tree)
              case Some(whole) => PartOf(At(tree, p), whole)
      ensures reliable ==> o.Ok?
    {
      OnlyAtRefl(tree, p);
      match At(tree, p)
      case None => o := Fault(reliable);
      case Some(whole) =>
        CopyIsExactIffCovered(None, whole);
        OverlayIsMid(None, whole);
        o := Fault(reliable);
        var left: Option<Tree> := *;
        if o.Ok? || !PartOf(left, whole) { left := None; }
        match left
        case None =>
          WithoutOnlyAt(tree, p);
          tree := Without(tree, p);
        case Some(rest) =>
          ExistingCanMake(tree, p);
          ParentIff(tree, p);
          PutIff(tree, p, rest);
          PutAt(tree, p, rest);
          PutOnlyAt(tree, p, rest);
          tree := Put(tree, p, rest).value;
    }
  }

  lemma NothingCopied(t: Tree, src: Tree, dest: Path)
    ensures OnlyAt(t, t, dest) && Mid(At(t, dest), src, At(t, dest))
  {
    OnlyAtRefl(t, dest);
  }

  lemma ChildCanMake(t: Tree, p: Path, k: string)
    requires IsDir(At(t, p))
    ensures CanMake(t, p + [k])
  {
    ExistingCanMake(t, p);
    forall i | 0 <= i < |p + [k]| ensures !IsFile(At(t, (p + [k])[..i])) {
      if i < |p| { assert (p + [k])[..i] == p[..i]; } else { assert (p + [k])[..i] == p; }
    }
  }
}
