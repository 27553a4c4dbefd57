/** Writing the files of an inventory into a tree. */
module Inventories {
  import opened Outcomes
  import opened Trees
  import opened FileStores
  import opened Manifests

  predicate NoRepeat<T(==)>(s: seq<T>) { forall i, j | 0 <= i < j < |s| :: s[i] != s[j] }

  lemma {:induction false} NoRepeatCounts<T>(s: seq<T>, x: T)
    requires NoRepeat(s)
    ensures multiset(s)[x] == if x in s then 1 else 0
    decreases |s|
  {
    if s == [] {
    } else {
      assert s == [s[0]] + s[1..];
      NoRepeatCounts(s[1..], x);
    }
  }

  lemma RepeatCounts<T>(s: seq<T>, i: nat, j: nat)
    requires i < j < |s| && s[i] == s[j]
    ensures multiset(s)[s[i]] > 1
  {
    assert s == s[..i] + [s[i]] + s[i + 1..j] + [s[j]] + s[j + 1..];
  }

  /** A permutation repeats nothing that was not repeated. */
  lemma SameRepeats<T>(s: seq<T>, t: seq<T>)
    requires multiset(s) == multiset(t) && NoRepeat(s)
    ensures NoRepeat(t)
  {
    forall i, j | 0 <= i < j < |t| ensures t[i] != t[j] {
      if t[i] == t[j] {
        RepeatCounts(t, i, j);
        NoRepeatCounts(s, t[i]);
      }
    }
  }

  datatype Placed = Placed(path: Path, tree: Tree)

  ghost predicate AllApart(ws: seq<Placed>) {
    forall i, j | 0 <= i < |ws| && 0 <= j < |ws| && i != j :: Apart(ws[i].path, ws[j].path)
  }

  function WriteAll(t: Tree, ws: seq<Placed>): Option<Tree>
    decreases |ws|
  {
    if ws == [] then Some(t)
    else match Put(t, ws[0].path, ws[0].tree)
      case None => None
      case Some(t') => WriteAll(t', ws[1..])
  }

  function PutIn(t: Option<Tree>, w: Placed): Option<Tree> {
    if t.Some? then Put(t.value, w.path, w.tree) else None
  }

  /** Writes to paths apart commute, failures included. */
  lemma {:induction false} PutCommutes(t: Tree, v: Placed, w: Placed)
    requires Apart(v.path, w.path)
    ensures PutIn(PutIn(Some(t), v), w) == PutIn(PutIn(Some(t), w), v)
    decreases |v.path|
  {
    var p, q := v.path, w.path;
    PrefixTail(p, q);
    PrefixTail(q, p);
    if t.Dir? {
      if p[0] == q[0] {
        var child := if p[0] in t.entries then t.entries[p[0]] else Dir(map[]);
        var v', w' := Placed(p[1..], v.tree), Placed(q[1..], w.tree);
        PutCommutes(child, v', w');
        var cv, cw := PutIn(Some(child), v'), PutIn(Some(child), w');
        var vw, wv := PutIn(cv, w'), PutIn(cw, v');
        if vw.Some? {
          assert t.entries[p[0] := cv.value][p[0] := vw.value] == t.entries[p[0] := cw.value][p[0] := wv.value];
        }
      } else {
        var cp := Put(if p[0] in t.entries then t.entries[p[0]] else Dir(map[]), p[1..], v.tree);
        var cq := Put(if q[0] in t.entries then t.entries[q[0]] else Dir(map[]), q[1..], w.tree);
        if cp.Some? && cq.Some? {
          assert t.entries[p[0] := cp.value][q[0] := cq.value] == t.entries[q[0] := cq.value][p[0] := cp.value];
        }
      }
    }
  }

  lemma ApartWithout(ws: seq<Placed>, i: int)
    requires AllApart(ws) && 0 <= i < |ws|
    ensures AllApart(ws[..i] + ws[i + 1..])
  {
    var rest := ws[..i] + ws[i + 1..];
    forall j, k | 0 <= j < |rest| && 0 <= k < |rest| && j != k ensures Apart(rest[j].path, rest[k].path) {
      var j', k' := if j < i then j else j + 1, if k < i then k else k + 1;
      assert rest[j] == ws[j'] && rest[k] == ws[k'];
    }
  }

  lemma WriteFront(t: Tree, w: Placed, rest: seq<Placed>)
    ensures WriteAll(t, [w] + rest) == match Put(t, w.path, w.tree)
                                       case None => None
                                       case Some(t') => WriteAll(t', rest)
  {
    assert ([w] + rest)[1..] == rest;
  }

  /** Two writes at the front may change places. */
  lemma SwapFirst(t: Tree, v: Placed, w: Placed, rest: seq<Placed>)
    requires Apart(v.path, w.path)
    ensures WriteAll(t, [v] + ([w] + rest)) == WriteAll(t, [w] + ([v] + rest))
  {
    PutCommutes(t, v, w);
    WriteFront(t, v, [w] + rest);
    WriteFront(t, w, [v] + rest);
    var tv, tw := Put(t, v.path, v.tree), Put(t, w.path, w.tree);
    if tv.Some? { WriteFront(tv.value, w, rest); }
    if tw.Some? { WriteFront(tw.value, v, rest); }
  }

  lemma {:induction false} MoveToFront(t: Tree, a: seq<Placed>, w: Placed, b: seq<Placed>)
    requires AllApart(a + [w] + b)
    ensures WriteAll(t, a + [w] + b) == WriteAll(t, [w] + (a + b))
    decreases |a|
  {
    var ws := a + [w] + b;
    if a == [] {
      assert ws == [w] + (a + b);
    } else {
      var v, rest := a[0], a[1..];
      assert ws == [v] + (rest + [w] + b) && a + b == [v] + (rest + b);
      TailApart(ws);
      assert ws[1..] == rest + [w] + b;
      WriteFront(t, v, rest + [w] + b);
      WriteFront(t, v, [w] + (rest + b));
      match Put(t, v.path, v.tree) {
        case None =>
        case Some(t') => MoveToFront(t', rest, w, b);
      }
      assert Apart(ws[0].path, ws[|a|].path);
      SwapFirst(t, v, w, rest + b);
    }
  }

  lemma TailApart(ws: seq<Placed>)
    requires AllApart(ws) && ws != []
    ensures AllApart(ws[1..])
  {
    ApartWithout(ws, 0);
    assert ws[..0] + ws[1..] == ws[1..];
  }

  lemma BringToFront(t: Tree, ws: seq<Placed>, w: Placed) returns (rest: seq<Placed>)
    requires AllApart(ws) && w in ws
    ensures AllApart(rest) && multiset(ws) == multiset{w} + multiset(rest)
    ensures WriteAll(t, ws) == if PutIn(Some(t), w) == None then None else WriteAll(PutIn(Some(t), w).value, rest)
  {
    var i :| 0 <= i < |ws| && ws[i] == w;
    var a, b := ws[..i], ws[i + 1..];
    rest := a + b;
    assert ws == a + [w] + b;
    MoveToFront(t, a, w, b);
    ApartWithout(ws, i);
    assert ([w] + rest)[1..] == rest;
  }

  /** The order in which the files of an inventory are written does not matter. */
  lemma {:induction false} WriteOrderIrrelevant(t: Tree, ws: seq<Placed>, ws': seq<Placed>)
    requires AllApart(ws) && AllApart(ws') && multiset(ws) == multiset(ws')
    ensures WriteAll(t, ws) == WriteAll(t, ws')
    decreases |ws|
  {
    if ws == [] {
      assert |multiset(ws')| == 0;
    } else {
      var w := ws[0];
      assert w in multiset(ws');
      var rest := BringToFront(t, ws, w);
      var rest' := BringToFront(t, ws', w);
      SameRest(ws, ws', w, rest, rest');
      var t' := PutIn(Some(t), w);
      if t'.Some? { WriteOrderIrrelevant(t'.value, rest, rest'); }
    }
  }

  lemma SameRest<T>(s: seq<T>, s': seq<T>, x: T, rest: seq<T>, rest': seq<T>)
    requires multiset(s) == multiset(s') && multiset(s) == multiset{x} + multiset(rest)
    requires multiset(s') == multiset{x} + multiset(rest')
    ensures multiset(rest) == multiset(rest') && |rest| < |s|
  {
    assert multiset(rest) == multiset(s) - multiset{x};
    assert |multiset(s)| == |multiset(rest)| + 1;
  }

  predicate OnlyFiles(ws: seq<Placed>) { forall i | 0 <= i < |ws| :: ws[i].tree.File? && ws[i].path != [] }

  predicate AllMakeable(t: Tree, ws: seq<Placed>) { forall i | 0 <= i < |ws| :: CanMake(t, ws[i].path) }

  /** The situation after the first write. */
  lemma WriteFirst(t: Tree, ws: seq<Placed>)
    requires ws != [] && AllApart(ws) && OnlyFiles(ws) && AllMakeable(t, ws)
    ensures Put(t, ws[0].path, ws[0].tree).Some?
    ensures AllApart(ws[1..]) && OnlyFiles(ws[1..]) && AllMakeable(Put(t, ws[0].path, ws[0].tree).value, ws[1..])
    ensures forall i | 0 <= i < |ws[1..]| :: Apart(ws[1..][i].path, ws[0].path)
  {
    PutMakes(t, ws[0].path, ws[0].tree);
    ApartWithout(ws, 0);
    assert ws[..0] + ws[1..] == ws[1..];
    var t' := Put(t, ws[0].path, ws[0].tree).value;
    forall i | 0 <= i < |ws[1..]| ensures Apart(ws[1..][i].path, ws[0].path) && CanMake(t', ws[1..][i].path) {
      assert Apart(ws[0].path, ws[i + 1].path) && CanMake(t, ws[i + 1].path);
      CanMakeAfter(t, ws[0], ws[i + 1].path);
    }
  }

  lemma {:induction false} WriteAllSucceeds(t: Tree, ws: seq<Placed>)
    requires AllApart(ws) && OnlyFiles(ws) && AllMakeable(t, ws)
    ensures WriteAll(t, ws).Some?
    decreases |ws|
  {
    if ws == [] {
    } else {
      WriteFirst(t, ws);
      WriteAllSucceeds(Put(t, ws[0].path, ws[0].tree).value, ws[1..]);
    }
  }

  lemma {:induction false} WriteAllKeeps(t: Tree, ws: seq<Placed>, q: Path)
    requires WriteAll(t, ws).Some? && forall i | 0 <= i < |ws| :: Apart(ws[i].path, q)
    ensures At(WriteAll(t, ws).value, q) == At(t, q)
    decreases |ws|
  {
    if ws == [] {
    } else {
      PutKept(t, ws[0].path, ws[0].tree, q);
      assert Apart(ws[0].path, q);
      forall i | 0 <= i < |ws[1..]| ensures Apart(ws[1..][i].path, q) { assert Apart(ws[i + 1].path, q); }
      WriteAllKeeps(Put(t, ws[0].path, ws[0].tree).value, ws[1..], q);
    }
  }

  lemma {:induction false} WriteAllHas(t: Tree, ws: seq<Placed>, i: nat)
    requires AllApart(ws) && OnlyFiles(ws) && AllMakeable(t, ws) && i < |ws|
    ensures WriteAll(t, ws).Some? && At(WriteAll(t, ws).value, ws[i].path) == Some(ws[i].tree)
    decreases |ws|
  {
    WriteAllSucceeds(t, ws);
    WriteFirst(t, ws);
    var t' := Put(t, ws[0].path, ws[0].tree).value;
    if i == 0 {
      PutAt(t, ws[0].path, ws[0].tree);
      WriteAllKeeps(t', ws[1..], ws[0].path);
    } else {
      WriteAllHas(t', ws[1..], i - 1);
    }
  }

  lemma {:induction false} WriteAllOnly(t: Tree, ws: seq<Placed>, q: Path)
    requires WriteAll(t, ws).Some? && OnlyFiles(ws) && FileAt(WriteAll(t, ws).value, q).Some? && !FileAt(t, q).Some?
    ensures exists i :: 0 <= i < |ws| && ws[i].path == q
    decreases |ws|
  {
    var t' := Put(t, ws[0].path, ws[0].tree).value;
    if FileAt(t', q).Some? {
      PutKept(t, ws[0].path, ws[0].tree, q);
      PutAt(t, ws[0].path, ws[0].tree);
      if ws[0].path < q { AtBeneath(t', ws[0].path, q); }
      assert ws[0].path == q;
    } else {
      WriteAllOnly(t', ws[1..], q);
      var i :| 0 <= i < |ws[1..]| && ws[1..][i].path == q;
      assert ws[i + 1].path == q;
    }
  }

  /** Writing paths apart into an empty directory succeeds, and the regular files of the result
      are exactly those written. */
  lemma WriteAllExact(ws: seq<Placed>)
    requires AllApart(ws) && OnlyFiles(ws)
    ensures WriteAll(Dir(map[]), ws).Some?
    ensures forall i | 0 <= i < |ws| :: At(WriteAll(Dir(map[]), ws).value, ws[i].path) == Some(ws[i].tree)
    ensures forall q: Path | FileAt(WriteAll(Dir(map[]), ws).value, q).Some? ::
              exists i :: 0 <= i < |ws| && ws[i].path == q
  {
    var empty := Dir(map[]);
    forall i | 0 <= i < |ws| ensures CanMake(empty, ws[i].path) {
      forall k | 0 <= k < |ws[i].path| ensures !IsFile(At(empty, ws[i].path[..k])) {}
    }
    WriteAllSucceeds(empty, ws);
    forall i | 0 <= i < |ws|
      ensures At(WriteAll(empty, ws).value, ws[i].path) == Some(ws[i].tree)
    { WriteAllHas(empty, ws, i); }
    forall q: Path | FileAt(WriteAll(empty, ws).value, q).Some? ensures exists i :: 0 <= i < |ws| && ws[i].path == q {
      assert FileAt(empty, q) == None;
      WriteAllOnly(empty, ws, q);
    }
  }

  lemma PutMakes(t: Tree, p: Path, x: Tree)
    requires p != [] && CanMake(t, p)
    ensures Put(t, p, x).Some? && Put(t, p, x).value.Dir?
  {
    ParentIff(t, p);
    PutIff(t, p, x);
  }

  lemma CanMakeAfter(t: Tree, w: Placed, p: Path)
    requires Put(t, w.path, w.tree).Some? && Apart(w.path, p) && CanMake(t, p)
    ensures CanMake(Put(t, w.path, w.tree).value, p)
  {
    forall i | 0 <= i < |p| ensures !IsFile(At(Put(t, w.path, w.tree).value, p[..i])) {
      PutKept(t, w.path, w.tree, p[..i]);
      assert !IsFile(At(t, p[..i]));
      assert !(w.path <= p[..i]);
    }
  }

  lemma PermutationApart(ws: seq<Placed>, ws': seq<Placed>)
    requires AllApart(ws) && multiset(ws) == multiset(ws')
    ensures AllApart(ws')
  {
    assert NoRepeat(ws) by {
      forall i, j | 0 <= i < j < |ws| ensures ws[i] != ws[j] { assert Apart(ws[i].path, ws[j].path); }
    }
    SameRepeats(ws, ws');
    forall i, j | 0 <= i < |ws'| && 0 <= j < |ws'| && i != j ensures Apart(ws'[i].path, ws'[j].path) {
      assert ws'[i] in multiset(ws) && ws'[j] in multiset(ws);
      var a :| 0 <= a < |ws| && ws[a] == ws'[i];
      var b :| 0 <= b < |ws| && ws[b] == ws'[j];
      assert a != b by { if i < j { assert ws'[i] != ws'[j]; } else { assert ws'[j] != ws'[i]; } }
    }
  }

  /** What the validation of an inventory is for: its files can be written into an empty directory
      in any order, every order gives the same tree, and that tree holds them all and no others. */
  lemma ValidInventoryWrites(files: seq<PackageFile>, ws: seq<Placed>, ws': seq<Placed>)
    requires ValidInventory(files) && |ws| == |files| && multiset(ws') == multiset(ws)
    requires forall i | 0 <= i < |ws| :: ws[i].path == FilePath(files[i]) && ws[i].tree.File?
    ensures WriteAll(Dir(map[]), ws').Some? && WriteAll(Dir(map[]), ws') == WriteAll(Dir(map[]), ws)
    ensures forall i | 0 <= i < |ws| :: At(WriteAll(Dir(map[]), ws').value, ws[i].path) == Some(ws[i].tree)
    ensures forall q: Path | FileAt(WriteAll(Dir(map[]), ws').value, q).Some? ::
              exists i :: 0 <= i < |files| && FilePath(files[i]) == q
  {
    forall i, j | 0 <= i < |ws| && 0 <= j < |ws| && i != j
      ensures Apart(ws[i].path, ws[j].path)
    { InventoryApart(files, i, j); }
    PermutationApart(ws, ws');
    WriteOrderIrrelevant(Dir(map[]), ws, ws');
    WriteAllExact(ws);
  }
}
