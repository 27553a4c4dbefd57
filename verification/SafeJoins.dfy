/** src/fsutil.rs: joining a relative path to a directory without following links. */
module SafeJoins {
  import opened Outcomes
  import opened Paths
  import opened Trees

  /** What may be found on disk; a link names whatever it likes, and the rest is sockets and the like. */
  datatype Node =
    | Plain(bytes: Bytes, executable: bool)
    | Folder(entries: map<string, Node>)
    | Link(target: string)
    | Special

  datatype Stat = Absent | NotADirectory | Found(node: Node)

  /** What the operating system sees at `p` without following a link at its end. Links on the way
      are followed; `follow` says what they lead to, inside or outside. */
  function LinkStat(n: Node, p: Path, follow: string -> Option<Node>): Stat
    decreases |p|, if n.Link? then 1 else 0
  {
    if p == [] then Found(n)
    else match n
      case Plain(_, _) => NotADirectory
      case Special => NotADirectory
      case Folder(entries) => if p[0] in entries then LinkStat(entries[p[0]], p[1..], follow) else Absent
      case Link(target) =>
        match follow(target)
        case None => Absent
        case Some(m) => if m.Link? then Absent else LinkStat(m, p, follow)
  }

  /** What opening `p` reaches. */
  function Reach(n: Node, p: Path, follow: string -> Option<Node>): Option<Node> {
    match LinkStat(n, p, follow)
    case Found(Link(target)) => follow(target)
    case Found(node) => Some(node)
    case _ => None
  }

  /** What lies at `p` by name alone. */
  function Lexical(n: Node, p: Path): Option<Node>
    decreases |p|
  {
    if p == [] then Some(n)
    else if n.Folder? && p[0] in n.entries then Lexical(n.entries[p[0]], p[1..])
    else None
  }

  predicate IsLink(n: Node, p: Path) { Lexical(n, p).Some? && Lexical(n, p).value.Link? }

  predicate IsLeaf(n: Node, p: Path) {
    Lexical(n, p).Some? && (Lexical(n, p).value.Plain? || Lexical(n, p).value.Special?)
  }

  predicate NoLinkAbove(n: Node, p: Path) { forall i | 0 <= i < |p| :: !IsLink(n, p[..i]) }

  predicate NoFileAbove(n: Node, p: Path) { forall i | 0 <= i < |p| :: !IsLeaf(n, p[..i]) }

  /** Neither a link at `p` or above it nor a file above it. */
  predicate Clear(root: Node, p: Path) { NoLinkAbove(root, p) && !IsLink(root, p) && NoFileAbove(root, p) }

  // ---------------------------------------------------------------------------
  // Components

  datatype Component = RootDir | CurDir | ParentDir | Normal(name: string)

  /** The parts of a path that `Path::components` keeps. */
  function Kept(parts: seq<string>): seq<Component> {
    if parts == [] then []
    else
      (if parts[0] in {"", "."} then [] else if parts[0] == ".." then [ParentDir] else [Normal(parts[0])])
      + Kept(parts[1..])
  }

  /** `Path::components`, on Unix. */
  function Components(s: string): seq<Component> {
    (if s != "" && s[0] == '/' then [RootDir] else if Split(s)[0] == "." then [CurDir] else []) + Kept(Split(s))
  }

  predicate AllNormal(components: seq<Component>) { forall i | 0 <= i < |components| :: components[i].Normal? }

  function NamesOf(components: seq<Component>): Path
    requires AllNormal(components)
  {
    seq(|components|, i requires 0 <= i < |components| => components[i].name)
  }

  lemma {:induction false} KeptValid(parts: seq<string>)
    requires forall i | 0 <= i < |parts| :: ValidPart(parts[i])
    ensures AllNormal(Kept(parts)) && NamesOf(Kept(parts)) == parts
  {
    if parts == [] {
    } else {
      KeptValid(parts[1..]);
    }
  }

  /** A path of the grammar has no component that could leave the directory. */
  lemma CheckedComponents(s: string)
    requires CheckPath(s)
    ensures AllNormal(Components(s)) && NamesOf(Components(s)) == Split(s)
  {
    assert ValidPart(Split(s)[0]);
    KeptValid(Split(s));
  }

  // ---------------------------------------------------------------------------

  lemma {:induction false} LexicalStep(n: Node, p: Path, k: string)
    ensures Lexical(n, p + [k]) == match Lexical(n, p)
                                   case Some(Folder(entries)) => if k in entries then Some(entries[k]) else None
                                   case _ => None
    decreases |p|
  {
    var q := p + [k];
    if p == [] {
      assert q[1..] == [];
    } else {
      assert q[1..] == p[1..] + [k];
      if n.Folder? && p[0] in n.entries { LexicalStep(n.entries[p[0]], p[1..], k); }
    }
  }

  /** Where no link is in the way, the operating system sees what the names say; it complains
      exactly when a file is in the way. */
  lemma {:induction false} StatIsLexical(n: Node, p: Path, follow: string -> Option<Node>)
    requires NoLinkAbove(n, p)
    ensures LinkStat(n, p, follow) == match Lexical(n, p)
                                      case Some(node) => Found(node)
                                      case None => if NoFileAbove(n, p) then Absent else NotADirectory
    decreases |p|
  {
    if p != [] {
      assert Lexical(n, p[..0]) == Some(n);
      assert !IsLink(n, p[..0]) && (n.Plain? || n.Special? ==> IsLeaf(n, p[..0]));
      if n.Folder? {
        if p[0] in n.entries {
          InChild(n, p);
          StatIsLexical(n.entries[p[0]], p[1..], follow);
        } else {
          forall i | 0 <= i < |p| ensures !IsLeaf(n, p[..i]) {}
        }
      }
    }
  }

  lemma InChild(n: Node, p: Path)
    requires p != [] && n.Folder? && p[0] in n.entries
    ensures NoLinkAbove(n, p) <==> NoLinkAbove(n.entries[p[0]], p[1..])
    ensures NoFileAbove(n, p) <==> NoFileAbove(n.entries[p[0]], p[1..])
  {
    var m, rest := n.entries[p[0]], p[1..];
    forall i | 0 <= i < |rest|
      ensures Lexical(m, rest[..i]) == Lexical(n, p[..i + 1])
    { assert p[..i + 1][1..] == rest[..i]; }
    forall i | 0 < i < |p| ensures Lexical(n, p[..i]) == Lexical(m, rest[..i - 1]) {}
    if NoLinkAbove(n, p) {
      forall i | 0 <= i < |rest| ensures !IsLink(m, rest[..i]) { assert !IsLink(n, p[..i + 1]); }
    }
    if NoFileAbove(n, p) {
      forall i | 0 <= i < |rest| ensures !IsLeaf(m, rest[..i]) { assert !IsLeaf(n, p[..i + 1]); }
    }
    if NoLinkAbove(m, rest) {
      forall i | 0 <= i < |p| ensures !IsLink(n, p[..i]) { if i > 0 { assert !IsLink(m, rest[..i - 1]); } }
    }
    if NoFileAbove(m, rest) {
      forall i | 0 <= i < |p| ensures !IsLeaf(n, p[..i]) { if i > 0 { assert !IsLeaf(m, rest[..i - 1]); } }
    }
  }

  lemma AboveStep(root: Node, p: Path, k: string)
    ensures NoLinkAbove(root, p + [k]) <==> NoLinkAbove(root, p) && !IsLink(root, p)
    ensures NoFileAbove(root, p + [k]) <==> NoFileAbove(root, p) && !IsLeaf(root, p)
  {
    var q := p + [k];
    assert q[..|p|] == p;
    forall i | 0 <= i < |p| ensures q[..i] == p[..i] {}
    if NoLinkAbove(root, q) {
      forall i | 0 <= i < |p| ensures !IsLink(root, p[..i]) { assert !IsLink(root, q[..i]); }
    }
    if NoFileAbove(root, q) {
      forall i | 0 <= i < |p| ensures !IsLeaf(root, p[..i]) { assert !IsLeaf(root, q[..i]); }
    }
  }

  /** One more name may be pushed exactly if the result is not a link and no file precedes it. */
  lemma ClearStep(root: Node, p: Path, k: string, follow: string -> Option<Node>)
    requires Clear(root, p)
    ensures Clear(root, p + [k]) <==> match LinkStat(root, p + [k], follow)
                                      case Found(node) => !node.Link?
                                      case Absent => true
                                      case NotADirectory => false
  {
    AboveStep(root, p, k);
    LexicalStep(root, p, k);
    StatIsLexical(root, p + [k], follow);
  }

  lemma ClearOfLonger(root: Node, p: Path, i: nat)
    requires i <= |p| && Clear(root, p)
    ensures Clear(root, p[..i])
  {
    forall j | 0 <= j < i ensures p[..i][..j] == p[..j] {}
    if i == |p| { assert p[..i] == p; }
  }

  /** Push one name and look at the result without following it. */
  method Push(root: Node, path: Path, name: string, follow: string -> Option<Node>) returns (r: Result<Path>)
    requires Clear(root, path)
    ensures r.Success? <==> Clear(root, path + [name])
    ensures r.Success? ==> r.value == path + [name]
  {
    ClearStep(root, path, name, follow);
    match LinkStat(root, path + [name], follow)
    case Found(node) => if node.Link? { return Failure(UnsafePath); } else { return Success(path + [name]); }
    case Absent => return Success(path + [name]);
    case NotADirectory => return Failure(Io);
  }

  lemma OneMoreNormal(components: seq<Component>, i: nat)
    requires i < |components| && AllNormal(components[..i]) && components[i].Normal?
    ensures AllNormal(components[..i + 1])
    ensures NamesOf(components[..i + 1]) == NamesOf(components[..i]) + [components[i].name]
  {
  }

  /** These components are joined without complaint. */
  predicate Joins(root: Node, components: seq<Component>) {
    AllNormal(components) && Clear(root, NamesOf(components))
  }

  lemma PartJoins(root: Node, components: seq<Component>, i: nat)
    requires i <= |components| && Joins(root, components)
    ensures Joins(root, components[..i])
  {
    assert NamesOf(components)[..i] == NamesOf(components[..i]);
    ClearOfLonger(root, NamesOf(components), i);
  }

  method PushNext(root: Node, components: seq<Component>, i: nat, path: Path, follow: string -> Option<Node>)
    returns (r: Result<Path>)
    requires i < |components| && Joins(root, components[..i]) && path == NamesOf(components[..i])
    ensures r.Success? <==> Joins(root, components[..i + 1])
    ensures r.Success? ==> r.value == NamesOf(components[..i + 1])
  {
    if !components[i].Normal? {
      assert components[..i + 1][i] == components[i];
      return Failure(UnsafePath);
    }
    OneMoreNormal(components, i);
    r := Push(root, path, components[i].name, follow);
  }

  /** `checked_join`: push the components one by one, looking at each without following links. */
  method CheckedJoin(root: Node, relative: string, follow: string -> Option<Node>) returns (r: Result<Path>)
    requires root.Folder?
    ensures r.Success? <==> AllNormal(Components(relative)) && Clear(root, NamesOf(Components(relative)))
    ensures r.Success? ==> r.value == NamesOf(Components(relative))
  {
    var components := Components(relative);
    var result: Path := [];
    var i := 0;
    while i < |components|
      invariant 0 <= i <= |components| && Joins(root, components[..i]) && result == NamesOf(components[..i])
    {
      var pushed := PushNext(root, components, i, result, follow);
      if Joins(root, components) { PartJoins(root, components, i + 1); }
      if pushed.Failure? { return pushed; }
      result := pushed.value;
      i := i + 1;
    }
    assert components[..i] == components;
    return Success(result);
  }

  /** `safe_join` succeeds exactly on paths of the grammar on which no link, and no file above the
      end, is met. What is then opened under the joined path, wherever links elsewhere lead, is
      what lies beneath the root under those very names, and no name on the way is the state
      directory's in any letter case. */
  method SafeJoin(root: Node, relative: string, follow: string -> Option<Node>) returns (r: Result<Path>)
    requires root.Folder?
    ensures r.Success? <==> CheckPath(relative) && Clear(root, Split(relative))
    ensures r.Success? ==> r.value == Split(relative)
    ensures r.Success? ==> Reach(root, r.value, follow) == Lexical(root, r.value)
    ensures r.Success? ==>
              forall i | 0 <= i < |r.value| :: Fold(r.value[i]) != STATE_DIRECTORY && r.value[i] !in {"", ".", ".."}
  {
    if !CheckPath(relative) { return Failure(UnsafePath); }
    CheckedComponents(relative);
    r := CheckedJoin(root, relative, follow);
    if r.Success? {
      ClearReaches(root, r.value, follow);
      forall i | 0 <= i < |r.value| ensures ValidPart(r.value[i]) {}
    }
  }

  lemma ClearReaches(root: Node, p: Path, follow: string -> Option<Node>)
    requires Clear(root, p)
    ensures Reach(root, p, follow) == Lexical(root, p)
  {
    StatIsLexical(root, p, follow);
  }

  // ---------------------------------------------------------------------------
  // What is joined, in plain terms

  /** Nothing is in the way: whatever exists above the end is a directory, and the end is no link. */
  lemma ClearIff(root: Node, p: Path)
    ensures Clear(root, p) <==>
              && (forall i | 0 <= i < |p| && Lexical(root, p[..i]).Some? :: Lexical(root, p[..i]).value.Folder?)
              && (Lexical(root, p).Some? ==> !Lexical(root, p).value.Link?)
  {
    hide Lexical;
    if Clear(root, p) {
      forall i | 0 <= i < |p| && Lexical(root, p[..i]).Some? ensures Lexical(root, p[..i]).value.Folder? {
        assert !IsLink(root, p[..i]) && !IsLeaf(root, p[..i]);
      }
    }
  }

  /** The names `checked_join` goes down: those between the slashes but the empty ones and `.`; it
      refuses a path from the root, one that begins with `.`, and one with `..` anywhere. */
  lemma ComponentsIff(s: string)
    ensures AllNormal(Components(s)) <==> !("/" <= s) && Split(s)[0] != "." && ".." !in Split(s)
    ensures AllNormal(Components(s)) ==> NamesOf(Components(s)) == TrueNames(Split(s))
  {
    KeptNormal(Split(s));
    if "/" <= s || Split(s)[0] == "." {
      assert !Components(s)[0].Normal?;
    } else {
      assert Components(s) == Kept(Split(s));
    }
  }

  function TrueNames(parts: seq<string>): Path {
    if parts == [] then []
    else if parts[0] == "" || parts[0] == "." then TrueNames(parts[1..])
    else [parts[0]] + TrueNames(parts[1..])
  }

  lemma NormalFront(c: Component, rest: seq<Component>)
    ensures AllNormal([c] + rest) <==> c.Normal? && AllNormal(rest)
    ensures AllNormal([c] + rest) ==> NamesOf([c] + rest) == [c.name] + NamesOf(rest)
  {
    if AllNormal([c] + rest) {
      assert ([c] + rest)[0] == c;
      forall i | 0 <= i < |rest| ensures rest[i].Normal? { assert ([c] + rest)[i + 1] == rest[i]; }
    }
  }

  lemma {:induction false} KeptNormal(parts: seq<string>)
    ensures AllNormal(Kept(parts)) <==> ".." !in parts
    ensures AllNormal(Kept(parts)) ==> NamesOf(Kept(parts)) == TrueNames(parts)
  {
    if parts == [] {
    } else {
      var rest := parts[1..];
      KeptNormal(rest);
      assert parts == [parts[0]] + rest;
      if parts[0] == ".." {
        NormalFront(ParentDir, Kept(rest));
      } else if parts[0] !in {"", "."} {
        NormalFront(Normal(parts[0]), Kept(rest));
      } else {
        assert Kept(parts) == Kept(rest);
      }
    }
  }
}
