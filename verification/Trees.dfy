/** Directory trees: looking up, storing and removing a subtree, and the meaning of a
    recursive copy, finished or interrupted. */
module Trees {
  import opened Outcomes

  newtype byte = x: int | 0 <= x < 256
  type Bytes = seq<byte>
  type Path = seq<string>

  datatype Tree = File(bytes: Bytes, executable: bool) | Dir(entries: map<string, Tree>)

  predicate IsFile(t: Option<Tree>) { t.Some? && t.value.File? }

  predicate IsDir(t: Option<Tree>) { t.Some? && t.value.Dir? }

  function Entry(entries: map<string, Tree>, name: string): Option<Tree> {
    if name in entries then Some(entries[name]) else None
  }

  /** The entries of the directory in `t`, none if there is nothing there. */
  function Entries(t: Option<Tree>): map<string, Tree> {
    if IsDir(t) then t.value.entries else map[]
  }

  function At(t: Tree, p: Path): Option<Tree>
    decreases |p|
  {
    if p == [] then Some(t)
    else if t.Dir? && p[0] in t.entries then At(t.entries[p[0]], p[1..])
    else None
  }

  function FileAt(t: Tree, p: Path): Option<Tree> {
    if IsFile(At(t, p)) then At(t, p) else None
  }

  /** No file is in the way of the directories above `p`. */
  predicate CanMake(t: Tree, p: Path) {
    forall i | 0 <= i < |p| :: !IsFile(At(t, p[..i]))
  }

  /** Neither path is the other or lies beneath it. */
  predicate Apart(p: Path, q: Path) { !(p <= q) && !(q <= p) }

  /** Create missing parent directories, then store `x` at `p`. Fails beneath a file. */
  function Put(t: Tree, p: Path, x: Tree): Option<Tree>
    decreases |p|
  {
    if p == [] then Some(x)
    else if t.File? then None
    else
      var child := if p[0] in t.entries then t.entries[p[0]] else Dir(map[]);
      match Put(child, p[1..], x)
      case None => None
      case Some(c) => Some(Dir(t.entries[p[0] := c]))
  }

  function Without(t: Tree, p: Path): Tree
    requires p != []
    decreases |p|
  {
    if t.File? || p[0] !in t.entries then t
    else if |p| == 1 then Dir(t.entries - {p[0]})
    else Dir(t.entries[p[0] := Without(t.entries[p[0]], p[1..])])
  }

  /** `create_dir_all`. */
  function MakeDirs(t: Tree, p: Path): Option<Tree>
    decreases |p|
  {
    if t.File? then None
    else if p == [] then Some(t)
    else
      var child := if p[0] in t.entries then t.entries[p[0]] else Dir(map[]);
      match MakeDirs(child, p[1..])
      case None => None
      case Some(c) => Some(Dir(t.entries[p[0] := c]))
  }

  // ---------------------------------------------------------------------------
  // Frames

  /** A node above a written path keeps its kind, and its content if it is a file. */
  predicate ShapeKept(a: Option<Tree>, b: Option<Tree>) {
    match a
    case None => !IsFile(b)
    case Some(File(_, _)) => b == a
    case Some(Dir(_)) => IsDir(b)
  }

  predicate Kept(t: Tree, t': Tree, p: Path, q: Path) {
    && (Apart(p, q) ==> At(t', q) == At(t, q))
    && (q < p ==> ShapeKept(At(t, q), At(t', q)))
  }

  /** Going from `t` to `t'` changes only what is at or beneath `p`. */
  ghost predicate OnlyAt(t: Tree, t': Tree, p: Path) {
    forall q: Path :: Kept(t, t', p, q)
  }

  predicate KeptAll(t: Tree, t': Tree, ps: set<Path>, q: Path) {
    && ((forall p | p in ps :: Apart(p, q)) ==> At(t', q) == At(t, q))
    && ((forall p | p in ps :: !(p <= q)) ==> ShapeKept(At(t, q), At(t', q)))
  }

  /** Going from `t` to `t'` changes only what is at or beneath a path of `ps`. */
  ghost predicate OnlyWithin(t: Tree, t': Tree, ps: set<Path>) {
    forall q: Path :: KeptAll(t, t', ps, q)
  }

  lemma {:induction false} AtAppend(t: Tree, p: Path, q: Path)
    ensures At(t, p + q) == if At(t, p).Some? then At(At(t, p).value, q) else None
    decreases |p|
  {
    if p == [] {
      assert p + q == q;
    } else {
      assert (p + q)[1..] == p[1..] + q;
      if t.Dir? && p[0] in t.entries { AtAppend(t.entries[p[0]], p[1..], q); }
    }
  }

  /** What is beneath a missing node or a file is missing. */
  lemma AtBeneath(t: Tree, p: Path, q: Path)
    requires p < q && !IsDir(At(t, p))
    ensures At(t, q) == None
  {
    assert q == p + q[|p|..];
    AtAppend(t, p, q[|p|..]);
  }

  lemma {:induction false} PutAt(t: Tree, p: Path, x: Tree)
    requires Put(t, p, x).Some?
    ensures At(Put(t, p, x).value, p) == Some(x)
    decreases |p|
  {
    if p == [] {
    } else {
      PutAt(if p[0] in t.entries then t.entries[p[0]] else Dir(map[]), p[1..], x);
    }
  }

  lemma PrefixTail(p: Path, q: Path)
    requires p != [] && q != []
    ensures (p <= q) == (p[0] == q[0] && p[1..] <= q[1..])
    ensures (p < q) == (p[0] == q[0] && p[1..] < q[1..])
  {
    assert p == [p[0]] + p[1..] && q == [q[0]] + q[1..];
  }

  lemma {:induction false} PutKept(t: Tree, p: Path, x: Tree, q: Path)
    requires Put(t, p, x).Some?
    ensures Kept(t, Put(t, p, x).value, p, q)
    decreases |p|
  {
    if p == [] || q == [] {
    } else {
      PrefixTail(p, q);
      PrefixTail(q, p);
      if p[0] == q[0] {
        PutKept(if p[0] in t.entries then t.entries[p[0]] else Dir(map[]), p[1..], x, q[1..]);
      }
    }
  }

  lemma PutOnlyAt(t: Tree, p: Path, x: Tree)
    requires Put(t, p, x).Some?
    ensures OnlyAt(t, Put(t, p, x).value, p)
  {
    forall q: Path ensures Kept(t, Put(t, p, x).value, p, q) { PutKept(t, p, x, q); }
  }

  lemma {:induction false} WithoutKept(t: Tree, p: Path, q: Path)
    requires p != []
    ensures At(Without(t, p), p) == None
    ensures Kept(t, Without(t, p), p, q)
    decreases |p|
  {
    if q != [] {
      PrefixTail(p, q);
      PrefixTail(q, p);
    }
    if t.File? || p[0] !in t.entries || |p| == 1 {
    } else {
      WithoutKept(t.entries[p[0]], p[1..], if q == [] then [] else q[1..]);
    }
  }

  lemma WithoutOnlyAt(t: Tree, p: Path)
    requires p != []
    ensures At(Without(t, p), p) == None
    ensures OnlyAt(t, Without(t, p), p)
  {
    WithoutKept(t, p, p);
    forall q: Path ensures Kept(t, Without(t, p), p, q) { WithoutKept(t, p, q); }
  }

  lemma {:induction false} MakeDirsKept(t: Tree, p: Path, q: Path)
    requires MakeDirs(t, p).Some?
    ensures At(MakeDirs(t, p).value, p) == if IsDir(At(t, p)) then At(t, p) else Some(Dir(map[]))
    ensures At(t, p) == None || IsDir(At(t, p))
    ensures Kept(t, MakeDirs(t, p).value, p, q)
    decreases |p|
  {
    if p == [] {
    } else {
      if q != [] {
        PrefixTail(p, q);
        PrefixTail(q, p);
      }
      var child := if p[0] in t.entries then t.entries[p[0]] else Dir(map[]);
      MakeDirsKept(child, p[1..], if q == [] then [] else q[1..]);
    }
  }

  lemma MakeDirsOnlyAt(t: Tree, p: Path)
    requires MakeDirs(t, p).Some?
    ensures At(MakeDirs(t, p).value, p) == if IsDir(At(t, p)) then At(t, p) else Some(Dir(map[]))
    ensures OnlyAt(t, MakeDirs(t, p).value, p)
  {
    MakeDirsKept(t, p, p);
    forall q: Path ensures Kept(t, MakeDirs(t, p).value, p, q) { MakeDirsKept(t, p, q); }
  }

  lemma OnlyAtRefl(t: Tree, p: Path)
    ensures OnlyAt(t, t, p)
  {
  }

  lemma OnlyAtTrans(a: Tree, b: Tree, c: Tree, p: Path)
    requires OnlyAt(a, b, p) && OnlyAt(b, c, p)
    ensures OnlyAt(a, c, p)
  {
    forall q: Path ensures Kept(a, c, p, q) {
      assert Kept(a, b, p, q) && Kept(b, c, p, q);
    }
  }

  /** What changes only beneath a child changes only beneath the parent. */
  lemma OnlyAtParent(a: Tree, b: Tree, p: Path, p': Path)
    requires OnlyAt(a, b, p') && p <= p'
    ensures OnlyAt(a, b, p)
  {
    forall q: Path ensures Kept(a, b, p, q) {
      assert Kept(a, b, p', q);
      if Apart(p, q) { assert Apart(p', q); }
    }
  }

  lemma OnlyAtWithin(a: Tree, b: Tree, p: Path, ps: set<Path>)
    requires OnlyAt(a, b, p) && p in ps
    ensures OnlyWithin(a, b, ps)
  {
    forall q: Path ensures KeptAll(a, b, ps, q) { assert Kept(a, b, p, q); }
  }

  lemma OnlyWithinTrans(a: Tree, b: Tree, c: Tree, ps: set<Path>)
    requires OnlyWithin(a, b, ps) && OnlyWithin(b, c, ps)
    ensures OnlyWithin(a, c, ps)
  {
    forall q: Path ensures KeptAll(a, c, ps, q) {
      assert KeptAll(a, b, ps, q) && KeptAll(b, c, ps, q);
    }
  }

  /** The reader's form of `OnlyWithin`: no other regular file appears, disappears or changes. */
  lemma OtherFilesKept(a: Tree, b: Tree, ps: set<Path>, q: Path)
    requires OnlyWithin(a, b, ps)
    requires forall p | p in ps :: !(p <= q)
    ensures FileAt(b, q) == FileAt(a, q)
  {
    assert KeptAll(a, b, ps, q);
  }

  // ---------------------------------------------------------------------------
  // Recursive copies

  /** What `copy_tree` leaves at a destination that held `dst`: a file replaces anything but a
      directory, a directory is merged into a directory, and any other clash fails. */
  function Overlay(dst: Option<Tree>, src: Tree): Option<Tree>
    decreases src
  {
    match src
    case File(_, _) => if IsDir(dst) then None else Some(src)
    case Dir(es) =>
      var base := Entries(dst);
      if IsFile(dst) || exists k | k in es :: Overlay(Entry(base, k), es[k]) == None then None
      else Some(Dir(map k | k in base.Keys + es.Keys ::
                      if k in es then Overlay(Entry(base, k), es[k]).value else base[k]))
  }

  /** `mid` may be found at the destination when the copy of `src` onto `dst` is cut short. */
  predicate Mid(dst: Option<Tree>, src: Tree, mid: Option<Tree>)
    decreases src
  {
    || mid == dst
    || match src
       case File(_, _) => mid == Some(src) && !IsDir(dst)
       case Dir(es) =>
         var base := Entries(dst);
         && !IsFile(dst) && IsDir(mid)
         && base.Keys <= mid.value.entries.Keys <= base.Keys + es.Keys
         && forall k | k in mid.value.entries ::
              if k in es then Mid(Entry(base, k), es[k], Some(mid.value.entries[k]))
              else mid.value.entries[k] == base[k]
  }

  /** `part` is what a fresh copy of `whole` may have produced so far, or equally what a
      removal of `whole` may have left. */
  predicate PartOf(part: Option<Tree>, whole: Tree) { Mid(None, whole, part) }

  /** Nothing at the destination survives a copy of `src` onto it. */
  predicate Covered(dst: Option<Tree>, src: Tree)
    decreases src
  {
    || dst == None
    || match src
       case File(_, _) => IsFile(dst)
       case Dir(es) =>
         && IsDir(dst) && dst.value.entries.Keys <= es.Keys
         && forall k | k in dst.value.entries :: Covered(Some(dst.value.entries[k]), es[k])
  }

  /** Copying alone gives back exactly `src` if and only if the destination holds nothing that
      `src` lacks; an absent destination always qualifies, hence removal before restoration. */
  lemma {:induction false} CopyIsExactIffCovered(dst: Option<Tree>, src: Tree)
    ensures Overlay(dst, src) == Some(src) <==> Covered(dst, src)
    decreases src
  {
    if src.File? {
    } else {
      var es, base := src.entries, Entries(dst);
      forall k | k in es ensures Overlay(Entry(base, k), es[k]) == Some(es[k]) <==> Covered(Entry(base, k), es[k]) {
        CopyIsExactIffCovered(Entry(base, k), es[k]);
      }
      var r := Overlay(dst, src);
      if Covered(dst, src) {
        forall k | k in es ensures Covered(Entry(base, k), es[k]) {}
        assert r.Some? && r.value.entries == es;
      }
    }
  }

  /** An interrupted copy can be run again: the result is that of one uninterrupted copy. */
  lemma {:induction false} InterruptedCopyResumes(dst: Option<Tree>, src: Tree, mid: Option<Tree>)
    requires Mid(dst, src, mid)
    ensures Overlay(mid, src) == Overlay(dst, src)
    decreases src
  {
    if src.File? || mid == dst {
    } else {
      var es, base, m := src.entries, Entries(dst), mid.value.entries;
      forall k | k in es ensures Overlay(Entry(m, k), es[k]) == Overlay(Entry(base, k), es[k]) {
        if k in m { InterruptedCopyResumes(Entry(base, k), es[k], Some(m[k])); }
      }
      assert m.Keys + es.Keys == base.Keys + es.Keys;
      if Overlay(dst, src).Some? {
        assert Overlay(mid, src).value.entries == Overlay(dst, src).value.entries;
      }
    }
  }

  /** Interruptions accumulate into one interruption. */
  lemma {:induction false} MidTrans(a: Option<Tree>, src: Tree, b: Option<Tree>, c: Option<Tree>)
    requires Mid(a, src, b) && Mid(b, src, c)
    ensures Mid(a, src, c)
    decreases src
  {
    if src.File? || a == b || b == c {
    } else {
      var es := src.entries;
      forall k | k in c.value.entries && k in es ensures Mid(Entry(Entries(a), k), es[k], Some(c.value.entries[k])) {
        if k in Entries(b) { MidTrans(Entry(Entries(a), k), es[k], Entry(Entries(b), k), Some(c.value.entries[k])); }
      }
    }
  }

  /** A completed copy is one of the states an interruption may show. */
  lemma {:induction false} OverlayIsMid(dst: Option<Tree>, src: Tree)
    requires Overlay(dst, src).Some?
    ensures Mid(dst, src, Overlay(dst, src))
    decreases src
  {
    if src.File? {
    } else {
      var es, base := src.entries, Entries(dst);
      forall k | k in es ensures Mid(Entry(base, k), es[k], Overlay(Entry(base, k), es[k])) {
        OverlayIsMid(Entry(base, k), es[k]);
      }
    }
  }

  lemma FreshCopy(src: Tree, part: Option<Tree>)
    requires PartOf(part, src)
    ensures Overlay(part, src) == Some(src)
  {
    InterruptedCopyResumes(None, src, part);
    CopyIsExactIffCovered(None, src);
  }

  /** A part of a part is a part. */
  lemma {:induction false} PartTrans(whole: Tree, part: Tree, rest: Option<Tree>)
    requires PartOf(Some(part), whole) && PartOf(rest, part)
    ensures PartOf(rest, whole)
    decreases whole
  {
    if whole.File? || rest == None {
    } else {
      forall k | k in rest.value.entries ensures PartOf(Some(rest.value.entries[k]), whole.entries[k]) {
        PartTrans(whole.entries[k], part.entries[k], Some(rest.value.entries[k]));
      }
    }
  }

  // ---------------------------------------------------------------------------
  // Copies, path by path

  function Within(t: Option<Tree>, q: Path): Option<Tree> { if t.Some? then At(t.value, q) else None }

  lemma InEntry(t: Option<Tree>, q: Path)
    requires q != []
    ensures Within(t, q) == Within(Entry(Entries(t), q[0]), q[1..])
  {
  }

  /** At one path the two trees have a file and a directory. */
  predicate ClashAt(dst: Option<Tree>, src: Tree, q: Path) {
    || (IsFile(At(src, q)) && IsDir(Within(dst, q)))
    || (IsDir(At(src, q)) && IsFile(Within(dst, q)))
  }

  /** A copy is possible exactly if nowhere a file meets a directory. */
  lemma {:induction false} OverlayIff(dst: Option<Tree>, src: Tree)
    ensures Overlay(dst, src) == None <==> exists q: Path :: ClashAt(dst, src, q)
    decreases src
  {
    var here: Path := [];
    assert At(src, here) == Some(src) && Within(dst, here) == dst;
    if src.File? {
      if IsDir(dst) { assert ClashAt(dst, src, here); }
      forall q: Path | ClashAt(dst, src, q) ensures q == here {}
    } else if IsFile(dst) {
      assert ClashAt(dst, src, here);
    } else {
      var base, es := Entries(dst), src.entries;
      forall k | k in es ensures Overlay(Entry(base, k), es[k]) == None <==>
                                 exists q: Path :: ClashAt(Entry(base, k), es[k], q)
      {
        OverlayIff(Entry(base, k), es[k]);
      }
      if k, q: Path :| k in es && ClashAt(Entry(base, k), es[k], q) {
        var p := [k] + q;
        InEntry(dst, p);
        assert p[1..] == q && ClashAt(dst, src, p);
      }
      if q: Path :| ClashAt(dst, src, q) {
        assert q != [] && q[0] in es;
        InEntry(dst, q);
        assert ClashAt(Entry(base, q[0]), es[q[0]], q[1..]);
      }
    }
  }

  /** And then each file of the source is in the result, beside what else the destination held. */
  lemma {:induction false} OverlayFiles(dst: Option<Tree>, src: Tree, q: Path)
    requires Overlay(dst, src).Some?
    ensures var r := Overlay(dst, src).value;
            && (IsFile(At(src, q)) ==> At(r, q) == At(src, q))
            && (At(src, q) == None ==> At(r, q) == Within(dst, q))
            && (IsDir(At(src, q)) ==> IsDir(At(r, q)))
    decreases src
  {
    if q == [] || src.File? {
      if q != [] { assert At(src, q) == None && Within(dst, q) == None; }
    } else {
      InEntry(dst, q);
      var base := Entries(dst);
      if q[0] in src.entries { OverlayFiles(Entry(base, q[0]), src.entries[q[0]], q[1..]); }
    }
  }
}
