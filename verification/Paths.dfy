/** The path grammar of src/manifest.rs: slash-separated ASCII paths that name the same file,
    and never the state directory, on every platform. */
module Paths {

  const MAX_PATH: int := 4096
  const MAX_PART: int := 255
  const STATE_DIRECTORY: string := ".freshen"
  const SPECIAL: string := "\\:<>\"|?*"

  function LowerChar(c: char): char {
    if 'A' <= c <= 'Z' then ((c as int) + 32) as char else c
  }

  function UpperChar(c: char): char {
    if 'a' <= c <= 'z' then ((c as int) - 32) as char else c
  }

  /** `to_ascii_lowercase`; two strings are equal ignoring ASCII case when their folds are. */
  function Fold(s: string): string { seq(|s|, i requires 0 <= i < |s| => LowerChar(s[i])) }

  function Upper(s: string): string { seq(|s|, i requires 0 <= i < |s| => UpperChar(s[i])) }

  /** `split('/')`. */
  function Split(s: string): (parts: seq<string>)
    ensures |parts| >= 1
  {
    if s == "" then [""] else Prepend(s[0], Split(s[1..]))
  }

  /** The parts of a text that has `c` in front of the text with these parts. */
  function Prepend(c: char, parts: seq<string>): (r: seq<string>)
    requires parts != []
    ensures r != []
  {
    if c == '/' then [""] + parts else [[c] + parts[0]] + parts[1..]
  }

  function Join(parts: seq<string>): string
    requires parts != []
  {
    if |parts| == 1 then parts[0] else parts[0] + "/" + Join(parts[1..])
  }

  function BeforeDot(s: string): string {
    if s == "" || s[0] == '.' then "" else [s[0]] + BeforeDot(s[1..])
  }

  predicate Device(part: string) {
    var stem := Upper(BeforeDot(part));
    || stem in {"CON", "PRN", "AUX", "NUL"}
    || (|stem| == 4 && stem[..3] in {"COM", "LPT"} && '1' <= stem[3] <= '9')
  }

  predicate ValidPart(part: string) {
    && part !in {"", ".", ".."}
    && |part| <= MAX_PART
    && part[|part| - 1] !in {'.', ' '}
    && Fold(part) != STATE_DIRECTORY
    && (forall i | 0 <= i < |part| :: part[i] >= 32 as char && part[i] !in SPECIAL)
    && !Device(part)
  }

  predicate CheckPath(value: string) {
    && 0 < |value| <= MAX_PATH
    && (forall i | 0 <= i < |value| :: value[i] < 128 as char)
    && (forall i | 0 <= i < |Split(value)| :: ValidPart(Split(value)[i]))
  }

  /** `ancestor` is what is left of `path` before one of its slashes. */
  predicate SlashAncestor(ancestor: string, path: string) {
    |ancestor| < |path| && path[..|ancestor|] == ancestor && path[|ancestor|] == '/'
  }

  // ---------------------------------------------------------------------------

  lemma {:induction false} SplitParts(s: string)
    ensures forall i | 0 <= i < |Split(s)| :: '/' !in Split(s)[i]
  {
    if s == "" {
    } else {
      SplitParts(s[1..]);
    }
  }

  lemma {:induction false} JoinOfSplit(s: string)
    ensures Join(Split(s)) == s
  {
    if s != "" {
      JoinOfSplit(s[1..]);
      var tail := Split(s[1..]);
      if s[0] == '/' {
        assert ([""] + tail)[1..] == tail;
      } else {
        assert ([[s[0]] + tail[0]] + tail[1..])[1..] == tail[1..];
      }
    }
  }

  lemma {:induction false} SplitNoSlash(s: string)
    requires '/' !in s
    ensures Split(s) == [s]
  {
    if s == "" {
    } else {
      assert s[0] in s && s == [s[0]] + s[1..];
      SplitNoSlash(s[1..]);
    }
  }

  /** Splitting distributes over a slash. */
  lemma {:induction false} SplitAppend(a: string, b: string)
    ensures Split(a + "/" + b) == Split(a) + Split(b)
  {
    var s := a + "/" + b;
    if a == "" {
      assert s[1..] == b;
    } else {
      assert s[1..] == a[1..] + "/" + b && s[0] == a[0];
      SplitAppend(a[1..], b);
      PrependAppend(a[0], Split(a[1..]), Split(b));
    }
  }

  lemma PrependAppend(c: char, x: seq<string>, y: seq<string>)
    requires x != []
    ensures Prepend(c, x + y) == Prepend(c, x) + y
  {
    if c == '/' {
      assert [""] + (x + y) == ([""] + x) + y;
    } else {
      assert (x + y)[0] == x[0] && (x + y)[1..] == x[1..] + y;
    }
  }

  lemma {:induction false} SplitOfJoin(parts: seq<string>)
    requires parts != [] && forall i | 0 <= i < |parts| :: '/' !in parts[i]
    ensures Split(Join(parts)) == parts
  {
    SplitNoSlash(parts[0]);
    if |parts| == 1 {
    } else {
      SplitOfJoin(parts[1..]);
      SplitAppend(parts[0], Join(parts[1..]));
    }
  }

  lemma SplitInjective(a: string, b: string)
    requires Split(a) == Split(b)
    ensures a == b
  {
    JoinOfSplit(a);
    JoinOfSplit(b);
  }

  lemma {:induction false} JoinAppend(a: seq<string>, b: seq<string>)
    requires a != [] && b != []
    ensures Join(a + b) == Join(a) + "/" + Join(b)
  {
    if |a| == 1 {
      assert (a + b)[1..] == b;
    } else {
      assert (a + b)[1..] == a[1..] + b;
      JoinAppend(a[1..], b);
    }
  }

  /** Slash ancestors are exactly the proper prefixes of the component list. */
  lemma AncestorIffPrefix(ancestor: string, path: string)
    ensures SlashAncestor(ancestor, path) <==> Split(ancestor) < Split(path)
  {
    if SlashAncestor(ancestor, path) {
      var rest := path[|ancestor| + 1..];
      assert path == ancestor + "/" + rest;
      SplitAppend(ancestor, rest);
    }
    if Split(ancestor) < Split(path) {
      var rest := Split(path)[|Split(ancestor)|..];
      assert Split(path) == Split(ancestor) + rest;
      JoinAppend(Split(ancestor), rest);
      JoinOfSplit(ancestor);
      JoinOfSplit(path);
    }
  }

  /** Accepted paths are closed under taking ancestors and suffixes, and under joining up to
      the length bound; nothing else is accepted. */
  lemma CheckPathJoin(a: string, b: string)
    ensures CheckPath(a + "/" + b) <==> CheckPath(a) && CheckPath(b) && |a| + 1 + |b| <= MAX_PATH
  {
    hide ValidPart, Split;
    var s := a + "/" + b;
    SplitAppend(a, b);
    var x, y := Split(a), Split(b);
    assert Split(s) == x + y;
    if CheckPath(s) {
      assert ValidPart((x + y)[0]) && ValidPart((x + y)[|x|]);
      PartsOfBoth(x, y);
      forall i | 0 <= i < |a| ensures a[i] < 128 as char { assert s[i] < 128 as char; }
      forall i | 0 <= i < |b| ensures b[i] < 128 as char { assert s[|a| + 1 + i] < 128 as char; }
      NonEmptyPath(a);
      NonEmptyPath(b);
    }
    if CheckPath(a) && CheckPath(b) && |a| + 1 + |b| <= MAX_PATH { PartsOfBoth(x, y); }
  }

  lemma PartsOfBoth(x: seq<string>, y: seq<string>)
    ensures (forall i | 0 <= i < |x + y| :: ValidPart((x + y)[i]))
            <==> (forall i | 0 <= i < |x| :: ValidPart(x[i])) && (forall i | 0 <= i < |y| :: ValidPart(y[i]))
  {
    hide ValidPart;
    if forall i | 0 <= i < |x + y| :: ValidPart((x + y)[i]) {
      forall i | 0 <= i < |x| ensures ValidPart(x[i]) { assert (x + y)[i] == x[i]; }
      forall i | 0 <= i < |y| ensures ValidPart(y[i]) { assert (x + y)[|x| + i] == y[i]; }
    }
  }

  /** The empty string has one part, the empty one, which is not valid. */
  lemma NonEmptyPath(s: string)
    requires ValidPart(Split(s)[0])
    ensures s != ""
  {
  }

  predicate FoldsTo(x: seq<string>, y: seq<string>) {
    |x| == |y| && forall i | 0 <= i < |x| :: y[i] == Fold(x[i])
  }

  lemma {:induction false} FoldSplit(s: string)
    ensures FoldsTo(Split(s), Split(Fold(s)))
  {
    if s == "" {
    } else {
      assert Fold(s)[1..] == Fold(s[1..]);
      FoldSplit(s[1..]);
      FoldPrepend(s[0], Split(s[1..]), Split(Fold(s[1..])));
    }
  }

  lemma FoldPrepend(c: char, x: seq<string>, y: seq<string>)
    requires x != [] && FoldsTo(x, y)
    ensures FoldsTo(Prepend(c, x), Prepend(LowerChar(c), y))
  {
    assert Fold([c] + x[0]) == [LowerChar(c)] + Fold(x[0]);
  }

  lemma {:induction false} FoldBeforeDot(s: string)
    ensures BeforeDot(Fold(s)) == Fold(BeforeDot(s))
  {
    if s == "" || s[0] == '.' {
    } else {
      assert Fold(s)[1..] == Fold(s[1..]);
      FoldBeforeDot(s[1..]);
    }
  }

  lemma FoldDevice(part: string)
    ensures Device(Fold(part)) <==> Device(part)
  {
    FoldBeforeDot(part);
    assert Upper(Fold(BeforeDot(part))) == Upper(BeforeDot(part));
  }

  lemma FoldValidPart(part: string)
    ensures ValidPart(Fold(part)) <==> ValidPart(part)
  {
    hide Device;
    FoldDevice(part);
    assert Fold(Fold(part)) == Fold(part);
    forall i | 0 <= i < |part| ensures Fold(part)[i] in SPECIAL <==> part[i] in SPECIAL {}
    if |part| == 1 { assert Fold(part) == "." <==> part == "."; }
    if |part| == 2 { assert Fold(part) == ".." <==> part == ".."; }
  }

  /** The grammar does not see letter case. */
  lemma CheckPathFold(value: string)
    ensures CheckPath(Fold(value)) <==> CheckPath(value)
  {
    FoldSplit(value);
    forall i | 0 <= i < |Split(value)| ensures ValidPart(Split(Fold(value))[i]) <==> ValidPart(Split(value)[i]) {
      FoldValidPart(Split(value)[i]);
    }
    if CheckPath(Fold(value)) {
      forall i | 0 <= i < |value| ensures value[i] < 128 as char { assert Fold(value)[i] < 128 as char; }
      forall i | 0 <= i < |Split(value)| ensures ValidPart(Split(value)[i]) { assert ValidPart(Split(Fold(value))[i]); }
    }
  }

  // ---------------------------------------------------------------------------
  // The grammar, stated without its parsing

  /** Folding changes the 26 capital letters and nothing else. */
  lemma FoldLetters(s: string)
    ensures |Fold(s)| == |s|
    ensures forall i | 0 <= i < |s| && s[i] !in "ABCDEFGHIJKLMNOPQRSTUVWXYZ" :: Fold(s)[i] == s[i]
    ensures Fold("ABCDEFGHIJKLMNOPQRSTUVWXYZ") == "abcdefghijklmnopqrstuvwxyz"
  {
    var capitals := "ABCDEFGHIJKLMNOPQRSTUVWXYZ";
    forall i | 0 <= i < |s| && s[i] !in capitals ensures Fold(s)[i] == s[i] {
      if 'A' <= s[i] <= 'Z' { assert capitals[s[i] as int - 'A' as int] == s[i]; }
    }
  }

  /** The names Windows reserves, in lower case. */
  const DEVICES: set<string> :=
    {"con", "prn", "aux", "nul",
     "com1", "com2", "com3", "com4", "com5", "com6", "com7", "com8", "com9",
     "lpt1", "lpt2", "lpt3", "lpt4", "lpt5", "lpt6", "lpt7", "lpt8", "lpt9"}

  lemma {:induction false} BeforeDotIs(s: string, d: string)
    requires '.' !in d
    ensures BeforeDot(s) == d <==> s == d || d + "." <= s
  {
    if s == "" || s[0] == '.' {
      if d == "" && s != "" { assert "." <= s; }
    } else if d == "" {
    } else {
      BeforeDotIs(s[1..], d[1..]);
      assert s == [s[0]] + s[1..] && d == [d[0]] + d[1..];
      assert d + "." == [d[0]] + (d[1..] + ".");
    }
  }

  lemma DeviceStem(stem: string)
    ensures Fold(stem) in DEVICES <==>
              || Upper(stem) in {"CON", "PRN", "AUX", "NUL"}
              || (|stem| == 4 && Upper(stem)[..3] in {"COM", "LPT"} && '1' <= Upper(stem)[3] <= '9')
  {
    if |stem| == 3 {
      assert Fold(stem) == [Fold(stem)[0], Fold(stem)[1], Fold(stem)[2]];
      assert Upper(stem) == [Upper(stem)[0], Upper(stem)[1], Upper(stem)[2]];
    } else if |stem| == 4 {
      assert Fold(stem) == [Fold(stem)[0], Fold(stem)[1], Fold(stem)[2], Fold(stem)[3]];
      assert Upper(stem)[..3] == [Upper(stem)[0], Upper(stem)[1], Upper(stem)[2]];
    }
  }

  lemma NotDevice(p: string)
    ensures Device(p) <==> exists d :: d in DEVICES && (Fold(p) == d || d + "." <= Fold(p))
  {
    var stem := BeforeDot(p);
    FoldBeforeDot(p);
    DeviceStem(stem);
    forall d | d in DEVICES ensures Fold(stem) == d <==> Fold(p) == d || d + "." <= Fold(p) { BeforeDotIs(Fold(p), d); }
    if Device(p) { assert Fold(stem) in DEVICES; }
  }

  /** Which names a part of a path may be. */
  lemma ValidPartIff(p: string)
    ensures ValidPart(p) <==>
              && 0 < |p| <= 255 && p[|p| - 1] != '.' && p[|p| - 1] != ' '
              && (forall i | 0 <= i < |p| ::
                    p[i] >= ' ' && p[i] !in {'\\', ':', '<', '>', '"', '|', '?', '*'})
              && Fold(p) != ".freshen"
              && (forall d | d in DEVICES :: Fold(p) != d && !(d + "." <= Fold(p)))
  {
    NotDevice(p);
    assert forall c: char :: c in SPECIAL <==> c in {'\\', ':', '<', '>', '"', '|', '?', '*'};
  }

  /** Which paths are accepted: ASCII, not too long, valid names with slashes between them. */
  lemma CheckPathIff(value: string)
    ensures CheckPath(value) <==>
              && |value| <= 4096 && (forall i | 0 <= i < |value| :: value[i] as int < 128)
              && exists parts: seq<string> ::
                   && parts != [] && Join(parts) == value
                   && forall i | 0 <= i < |parts| :: '/' !in parts[i] && ValidPart(parts[i])
  {
    JoinOfSplit(value);
    SplitParts(value);
    if parts: seq<string> :| && parts != [] && Join(parts) == value
                             && forall i | 0 <= i < |parts| :: '/' !in parts[i] && ValidPart(parts[i])
    {
      SplitOfJoin(parts);
      assert ValidPart(parts[0]);
      assert value != "" by { if |parts| == 1 { assert value == parts[0]; } }
    }
    if CheckPath(value) {
      var parts := Split(value);
      assert parts != [] && Join(parts) == value;
    }
  }
}
