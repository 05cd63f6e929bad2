/**
 Slash-separated names and cleaned paths, as the archive checks and the extraction use them:
 splitting, `filepath.Clean`, `filepath.Join`, `filepath.Rel` and the two tests built on them.
 A cleaned path is a list of components, with a flag for a leading slash (Linux semantics).
 */
module TarPaths {
  import opened Options
  import Separated

  // ---------------------------------------------------------------------------------------
  // Splitting on slashes
  // ---------------------------------------------------------------------------------------

  function Split(s: string): (parts: seq<string>)
    ensures |parts| >= 1
    ensures forall i :: 0 <= i < |parts| ==> '/' !in parts[i]
  {
    Separated.Split('/', s)
  }

  predicate HasPrefix(s: string, prefix: string) { prefix <= s }

  predicate EscapesArchiveRoot(p: string) {
    p != "" && (HasPrefix(p, "/") || ".." in Split(p))
  }

  /** The name is rooted, or somewhere in it `..` stands between slashes or ends. */
  lemma EscapesIff(p: string)
    ensures EscapesArchiveRoot(p) <==>
      p != "" && (p[0] == '/' || exists before, after :: Separated.Stands('/', p, before, "..", after))
  {
    if ".." in Split(p) {
      var before, after := Separated.PartStands('/', p, "..");
    }
    if before, after :| Separated.Stands('/', p, before, "..", after) {
      Separated.PartOf('/', p, before, "..", after);
    }
    assert p != "" ==> (HasPrefix(p, "/") <==> p[0] == '/');
  }

  // ---------------------------------------------------------------------------------------
  // Cleaning
  // ---------------------------------------------------------------------------------------

  datatype Path = Path(rooted: bool, parts: seq<string>)

  /** One component onto the stack of those already cleaned. */
  function CleanStep(rooted: bool, stack: seq<string>, part: string): seq<string> {
    if part == "" || part == "." then stack
    else if part == ".." then
      if stack != [] && stack[|stack| - 1] != ".." then stack[..|stack| - 1]
      else if rooted then stack
      else stack + [".."]
    else stack + [part]
  }

  function CleanFrom(rooted: bool, stack: seq<string>, parts: seq<string>): seq<string>
    decreases parts
  {
    if parts == [] then stack
    else CleanFrom(rooted, CleanStep(rooted, stack, parts[0]), parts[1..])
  }

  function Clean(s: string): Path {
    var rooted := HasPrefix(s, "/");
    Path(rooted, CleanFrom(rooted, [], Split(s)))
  }

  /** The paths `Clean` produces: no empty or dot component, and `..` only at the front of a relative one. */
  predicate IsClean(p: Path) {
    && (forall i :: 0 <= i < |p.parts| ==> p.parts[i] != "" && p.parts[i] != "." && '/' !in p.parts[i])
    && (forall i :: 0 <= i < |p.parts| && p.parts[i] == ".." ==> !p.rooted && (i > 0 ==> p.parts[i - 1] == ".."))
  }

  lemma {:induction false} CleanFromClean(rooted: bool, stack: seq<string>, parts: seq<string>)
    requires IsClean(Path(rooted, stack)) && forall i :: 0 <= i < |parts| ==> '/' !in parts[i]
    ensures IsClean(Path(rooted, CleanFrom(rooted, stack, parts)))
    decreases parts
  {
    if parts != [] {
      CleanFromClean(rooted, CleanStep(rooted, stack, parts[0]), parts[1..]);
    }
  }

  lemma CleanIsClean(s: string)
    ensures IsClean(Clean(s))
  {
    CleanFromClean(HasPrefix(s, "/"), [], Split(s));
  }

  lemma {:induction false} CleanFromIdentity(rooted: bool, stack: seq<string>, parts: seq<string>)
    requires IsClean(Path(rooted, stack + parts))
    ensures CleanFrom(rooted, stack, parts) == stack + parts
    decreases parts
  {
    if parts != [] {
      var path := stack + parts;
      assert path[|stack|] == parts[0];
      assert parts[0] == ".." && stack != [] ==> path[|stack| - 1] == "..";
      assert stack + parts == (stack + [parts[0]]) + parts[1..];
      CleanFromIdentity(rooted, stack + [parts[0]], parts[1..]);
    }
  }

  /** Cleaning a clean path changes nothing. */
  lemma CleanIdempotent(p: Path)
    requires IsClean(p)
    ensures CleanFrom(p.rooted, [], p.parts) == p.parts
  {
    assert [] + p.parts == p.parts;
    CleanFromIdentity(p.rooted, [], p.parts);
  }

  // ---------------------------------------------------------------------------------------
  // Joining a name under a directory
  // ---------------------------------------------------------------------------------------

  /** `filepath.Join(dir, name)` for a clean directory: clean the two strings with a slash between. */
  function Join(dir: Path, name: string): Path {
    Path(dir.rooted, CleanFrom(dir.rooted, [], dir.parts + Split(name)))
  }

  lemma {:induction false} CleanFromConcat(rooted: bool, stack: seq<string>, a: seq<string>, b: seq<string>)
    ensures CleanFrom(rooted, stack, a + b) == CleanFrom(rooted, CleanFrom(rooted, stack, a), b)
    decreases a
  {
    if a == [] {
      assert a + b == b;
    } else {
      assert (a + b)[0] == a[0] && (a + b)[1..] == a[1..] + b;
      CleanFromConcat(rooted, CleanStep(rooted, stack, a[0]), a[1..], b);
    }
  }

  /**
   Cleaning leaves out empty components and dots; a `..` takes an ordinary component before it away with
   it, and at the top of a rooted path takes nothing.
   */
  lemma CleanRules(rooted: bool, a: seq<string>, x: string, b: seq<string>)
    ensures x == "" || x == "." ==> CleanFrom(rooted, [], a + [x] + b) == CleanFrom(rooted, [], a + b)
    ensures x != "" && x != "." && x != ".." ==>
      CleanFrom(rooted, [], a + [x] + [".."] + b) == CleanFrom(rooted, [], a + b)
    ensures CleanFrom(true, [], [".."] + b) == CleanFrom(true, [], b)
  {
    var stack := CleanFrom(rooted, [], a);
    CleanFromConcat(rooted, [], a, b);
    CleanFromConcat(rooted, [], a + [x], b);
    CleanFromConcat(rooted, [], a, [x]);
    CleanFromConcat(rooted, [], a + [x] + [".."], b);
    CleanFromConcat(rooted, [], a + [x], [".."]);
    assert ([".."] + b)[1..] == b;
    assert (stack + [x])[..|stack|] == stack;
  }

  /** The components of a name that a join keeps. */
  function Kept(parts: seq<string>): (kept: seq<string>)
    ensures ".." !in parts ==> ".." !in kept
  {
    if parts == [] then []
    else if parts[0] == "" || parts[0] == "." then Kept(parts[1..])
    else [parts[0]] + Kept(parts[1..])
  }

  lemma {:induction false} CleanFromDescends(rooted: bool, stack: seq<string>, parts: seq<string>)
    requires ".." !in parts
    ensures CleanFrom(rooted, stack, parts) == stack + Kept(parts)
    decreases parts
  {
    if parts != [] {
      CleanFromDescends(rooted, CleanStep(rooted, stack, parts[0]), parts[1..]);
      assert stack + ([parts[0]] + Kept(parts[1..])) == (stack + [parts[0]]) + Kept(parts[1..]);
    } else {
      assert stack + [] == stack;
    }
  }

  /** `target` is `dir` or lies below it, reached by going down only. */
  ghost predicate Inside(target: Path, dir: Path) {
    exists below :: ".." !in below && target == Path(dir.rooted, dir.parts + below)
  }

  /** A name without `..` components lands inside the directory it is joined to, at its kept components. */
  lemma JoinDescends(dir: Path, name: string)
    requires IsClean(dir) && ".." !in Split(name)
    ensures Join(dir, name) == Path(dir.rooted, dir.parts + Kept(Split(name)))
    ensures Inside(Join(dir, name), dir)
    ensures IsClean(Join(dir, name))
  {
    CleanIdempotent(dir);
    CleanFromConcat(dir.rooted, [], dir.parts, Split(name));
    CleanFromDescends(dir.rooted, dir.parts, Split(name));
    assert ".." !in Kept(Split(name));
    CleanFromClean(dir.rooted, dir.parts, Split(name));
  }

  // ---------------------------------------------------------------------------------------
  // The containment test
  // ---------------------------------------------------------------------------------------

  function CommonLength(a: seq<string>, b: seq<string>): (n: nat)
    ensures n <= |a| && n <= |b| && a[..n] == b[..n]
    ensures n < |a| && n < |b| ==> a[n] != b[n]
  {
    if a != [] && b != [] && a[0] == b[0] then
      var n := CommonLength(a[1..], b[1..]);
      assert a[..1 + n] == [a[0]] + a[1..][..n] && b[..1 + n] == [b[0]] + b[1..][..n];
      1 + n
    else 0
  }

  /** `filepath.Rel(base, target)` on clean paths, as components; `None` is its error. */
  function Rel(base: Path, target: Path): Option<seq<string>> {
    if base == target then Some(["."])
    else if base.rooted != target.rooted then None
    else
      var n := CommonLength(base.parts, target.parts);
      if n < |base.parts| && base.parts[n] == ".." then None
      else Some(seq(|base.parts| - n, _ => "..") + target.parts[n..])
  }

  predicate PathStaysUnder(target: Path, root: Path) {
    var rel := Rel(root, target);
    rel.Some? && !(rel.value != [] && rel.value[0] == "..")
  }

  lemma PrefixIsCommon(root: seq<string>, below: seq<string>)
    ensures CommonLength(root, root + below) == |root|
  {
  }

  /** In a clean path, once a component is not `..` no later one is. */
  lemma {:induction false} NoDotDotBelow(p: Path, n: nat)
    requires IsClean(p) && n <= |p.parts| && (n < |p.parts| ==> p.parts[n] != "..")
    ensures ".." !in p.parts[n..]
    decreases |p.parts| - n
  {
    if n < |p.parts| {
      assert n + 1 < |p.parts| ==> p.parts[n + 1] != "..";
      NoDotDotBelow(p, n + 1);
      assert p.parts[n..] == [p.parts[n]] + p.parts[n + 1..];
    }
  }

  lemma UnderIsInside(target: Path, root: Path)
    requires IsClean(target) && PathStaysUnder(target, root)
    ensures Inside(target, root)
  {
    if target == root {
      assert target == Path(root.rooted, root.parts + []);
    } else {
      var n := CommonLength(root.parts, target.parts);
      assert n == |root.parts|;
      assert target.parts == root.parts + target.parts[n..];
      NoDotDotBelow(target, n);
    }
  }

  lemma InsideIsUnder(target: Path, root: Path)
    requires Inside(target, root)
    ensures PathStaysUnder(target, root)
  {
    var below :| ".." !in below && target == Path(root.rooted, root.parts + below);
    PrefixIsCommon(root.parts, below);
    assert target.parts[|root.parts|..] == below;
  }

  /** On clean paths the test accepts exactly the paths inside the root. */
  lemma PathStaysUnderIff(target: Path, root: Path)
    requires IsClean(target) && IsClean(root)
    ensures PathStaysUnder(target, root) <==> Inside(target, root)
  {
    if PathStaysUnder(target, root) {
      UnderIsInside(target, root);
    }
    if Inside(target, root) {
      InsideIsUnder(target, root);
    }
  }

  // ---------------------------------------------------------------------------------------
  // Stripping the archive root
  // ---------------------------------------------------------------------------------------

  /** The text before the first slash, or nothing when there is no slash. */
  function LeadingDir(name: string): (dir: string)
    ensures '/' !in dir
  {
    if |Split(name)| > 1 then Split(name)[0] else ""
  }

  function Strip(firstDir: string, name: string): string {
    if firstDir != "" && HasPrefix(name, firstDir + "/") then name[|firstDir| + 1..] else name
  }

  /** `name` begins with the directory `d`, or has no slash and `d` is empty. */
  ghost predicate Begins(name: string, d: string) {
    '/' !in d && if '/' in name then exists rest :: name == d + "/" + rest else d == ""
  }

  /** The archive root a name fixes is what it begins with. */
  lemma LeadingDirIs(name: string, d: string)
    requires Begins(name, d)
    ensures LeadingDir(name) == d
  {
    if '/' in name {
      var rest :| name == d + "/" + rest;
      Separated.SplitAfter('/', d, rest);
    } else {
      Separated.SplitWhole('/', name);
    }
  }

  /** `rest` is the name below the archive root `d`, or the name itself when it is not below it. */
  predicate Stripped(d: string, name: string, rest: string) {
    if d != "" && d + "/" <= name then name == d + "/" + rest else rest == name
  }

  lemma StripIs(d: string, name: string, rest: string)
    requires Stripped(d, name, rest)
    ensures Strip(d, name) == rest
  {
    if d != "" && d + "/" <= name {
      assert name[|d| + 1..] == rest;
    }
  }

  /** Stripping removes one leading component or nothing, so it cannot bring in a `..`. */
  lemma StripKeepsOut(firstDir: string, name: string)
    requires '/' !in firstDir && !EscapesArchiveRoot(name)
    ensures ".." !in Split(Strip(firstDir, name))
  {
    if Strip(firstDir, name) != name {
      var rest := name[|firstDir| + 1..];
      assert name == firstDir + "/" + rest;
      Separated.SplitAfter('/', firstDir, rest);
    } else if name == "" {
      assert Split(name) == [""];
    }
  }

  /** An accepted name, stripped and joined, lies inside the directory, and the test after the join agrees. */
  lemma AcceptedStaysInside(dir: Path, firstDir: string, name: string)
    requires IsClean(dir) && '/' !in firstDir && !EscapesArchiveRoot(name)
    ensures Inside(Join(dir, Strip(firstDir, name)), dir)
    ensures PathStaysUnder(Join(dir, Strip(firstDir, name)), dir)
  {
    StripKeepsOut(firstDir, name);
    JoinDescends(dir, Strip(firstDir, name));
    PathStaysUnderIff(Join(dir, Strip(firstDir, name)), dir);
  }
}
