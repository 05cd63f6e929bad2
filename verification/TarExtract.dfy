/**
 Unpacking an uploaded tar archive into a scratch directory under caps on entries and bytes, and
 the header-only shape check the deploy path runs on the same archive.
 */
module TarExtract {
  import opened Options
  import opened TarPaths

  type Bytes = seq<bv8>

  datatype Kind = Regular | Directory | Symlink | HardLink | OtherKind(flag: nat)

  /**
   One archive member. `body` is what the tar reader delivers for it and `intact` whether it
   delivers it without error; an intact body has the size its header claims.
   */
  datatype Member = Member(name: string, kind: Kind, linkname: string, size: nat, body: Bytes, intact: bool)

  predicate Delivered(m: Member) {
    |m.body| <= m.size && (m.intact ==> |m.body| == m.size)
  }

  datatype Limits = Limits(maxEntries: nat, maxFileBytes: nat, maxTotalBytes: nat)

  datatype Problem =
    | BadTar
    | EscapingName
    | TypeNotAllowed
    | TooManyFiles
    | PathEscapeAfterJoin
    | EntryTooLarge
    | DiskFailure
    | SourceTooLarge
    | EscapingLink

  /** 2.5 times the compressed cap, ten thousand entries, 256 MiB a file. */
  function DefaultLimits(sourceTarballMaxMB: nat): Limits {
    var compressed := sourceTarballMaxMB * 1024 * 1024;
    Limits(10_000, 256 * 1024 * 1024, compressed * 2 + compressed / 2)
  }

  // ---------------------------------------------------------------------------------------
  // The file system
  // ---------------------------------------------------------------------------------------

  datatype Node = Dir | File(body: Bytes)

  /** What the extraction has made, anywhere in the file system, by cleaned path. */
  type Tree = map<Path, Node>

  function Parent(p: Path): Path {
    if p.parts == [] then p else Path(p.rooted, p.parts[..|p.parts| - 1])
  }

  predicate Above(k: Path, p: Path) { k.rooted == p.rooted && k.parts <= p.parts }

  /** The scratch directory and the directories it is in were there before. */
  predicate IsDir(dst: Path, tree: Tree, p: Path) { Above(p, dst) || (p in tree && tree[p].Dir?) }

  /** `os.MkdirAll`: `None` when a file stands where a directory is wanted. */
  function MkdirAll(dst: Path, tree: Tree, p: Path): (r: Option<Tree>)
    ensures r.Some? ==> p.parts == [] || IsDir(dst, r.value, p)
    ensures r.Some? ==> forall k :: k in tree ==> k in r.value && r.value[k] == tree[k]
    ensures r.Some? ==> forall k :: k in r.value && k !in tree ==> r.value[k] == Dir && Above(k, p)
    decreases |p.parts|
  {
    if p.parts == [] || IsDir(dst, tree, p) then Some(tree)
    else if p in tree then None
    else
      var up := MkdirAll(dst, tree, Parent(p));
      if up.None? then None else Some(up.value[p := Dir])
  }

  /** `os.MkdirAll` on a disk that takes only `room` more directories, and what room is left. */
  function MkdirSome(dst: Path, tree: Tree, p: Path, room: nat): (r: (Tree, nat))
    ensures forall k :: k in tree ==> k in r.0 && r.0[k] == tree[k]
    ensures forall k :: k in r.0 && k !in tree ==> r.0[k] == Dir && Above(k, p)
    decreases |p.parts|
  {
    if p.parts == [] || IsDir(dst, tree, p) then (tree, room)
    else if p in tree then (tree, 0)
    else
      var (up, left) := MkdirSome(dst, tree, Parent(p), room);
      if left == 0 then (up, 0) else (up[p := Dir], left - 1)
  }

  /** How the disk fails a member: after making some directories, on creating the file, or after some bytes. */
  datatype Fault = CannotMakeDirs(room: nat) | CannotCreate | CannotWrite(bytes: nat)

  /** The directories down to `p`, and whether all of them are there. */
  function MadeDirs(dst: Path, tree: Tree, p: Path, fault: Option<Fault>): (Tree, bool) {
    if fault.Some? && fault.value.CannotMakeDirs? then (MkdirSome(dst, tree, p, fault.value.room).0, false)
    else
      var made := MkdirAll(dst, tree, p);
      if made.Some? then (made.value, true) else (tree, false)
  }

  // ---------------------------------------------------------------------------------------
  // The loop, one member at a time
  // ---------------------------------------------------------------------------------------

  /**
   What the loop carries: members counted, bytes counted, the archive root once a named member
   fixed it, the tree, and every byte ever written, counted or not.
   */
  datatype Progress = Progress(entries: nat, total: nat, root: Option<string>, tree: Tree, written: nat)

  /** The scratch directory is there and empty. */
  function Fresh(dst: Path): Progress { Progress(0, 0, None, map[dst := Dir], 0) }

  function RootAfter(root: Option<string>, name: string): (r: string)
    requires root.Some? ==> '/' !in root.value
    ensures '/' !in r
  {
    if root.Some? then root.value else LeadingDir(name)
  }

  function Limited(body: Bytes, n: nat): Bytes { if |body| <= n then body else body[..n] }

  /** The bytes of a body that reach the file. */
  function Copied(lim: Limits, m: Member, fault: Option<Fault>): (b: Bytes)
    ensures |b| <= lim.maxFileBytes
    ensures Delivered(m) && m.size <= lim.maxFileBytes && !(fault.Some? && fault.value.CannotWrite?) ==> b == m.body
  {
    var delivered := Limited(m.body, lim.maxFileBytes);
    if fault.Some? && fault.value.CannotWrite? then Limited(delivered, fault.value.bytes) else delivered
  }

  /** The regular-file arm: size cap, parents, create, copy, running total. */
  function Copy(dst: Path, lim: Limits, acc: Progress, at: Path, m: Member, fault: Option<Fault>)
    : (Progress, Option<Problem>)
  {
    if m.size > lim.maxFileBytes then (acc, Some(EntryTooLarge))
    else
      var (tree, made) := MadeDirs(dst, acc.tree, Parent(at), fault);
      if !made || fault == Some(CannotCreate) || IsDir(dst, tree, at)
      then (acc.(tree := tree), Some(DiskFailure))
      else
        var body := Copied(lim, m, fault);
        var acc' := acc.(tree := tree[at := File(body)], written := acc.written + |body|);
        if !m.intact || (fault.Some? && fault.value.CannotWrite?) then (acc', Some(BadTar))
        else
          var acc'' := acc'.(total := acc.total + |body|);
          (acc'', if acc''.total > lim.maxTotalBytes then Some(SourceTooLarge) else None)
  }

  /** Everything after the archive root is known: skip the root itself, check the join, make the directory or file. */
  function Place(dst: Path, lim: Limits, acc: Progress, root: string, m: Member, fault: Option<Fault>)
    : (Progress, Option<Problem>)
  {
    var name := Strip(root, m.name);
    if name == "" then (acc, None)
    else
      var target := Join(dst, name);
      if !PathStaysUnder(target, dst) then (acc, Some(PathEscapeAfterJoin))
      else if m.kind.Directory? then
        var (tree, made) := MadeDirs(dst, acc.tree, target, fault);
        (acc.(tree := tree), if made then None else Some(DiskFailure))
      else Copy(dst, lim, acc, target, m, fault)
  }

  function Unpack(dst: Path, lim: Limits, acc: Progress, m: Member, fault: Option<Fault>)
    : (r: (Progress, Option<Problem>))
    requires acc.root.Some? ==> '/' !in acc.root.value
    ensures r.0.root.Some? ==> '/' !in r.0.root.value
  {
    if m.name == "" then (acc, None)
    else if EscapesArchiveRoot(m.name) then (acc, Some(EscapingName))
    else if !m.kind.Regular? && !m.kind.Directory? then (acc, Some(TypeNotAllowed))
    else
      var counted := acc.(entries := acc.entries + 1);
      if counted.entries > lim.maxEntries then (counted, Some(TooManyFiles))
      else
        var root := RootAfter(acc.root, m.name);
        Place(dst, lim, counted.(root := Some(root)), root, m, fault)
  }

  /** The member is named, and its name, its type and the entry cap let it through. */
  predicate Admitted(lim: Limits, acc: Progress, m: Member) {
    && m.name != "" && !EscapesArchiveRoot(m.name) && (m.kind.Regular? || m.kind.Directory?)
    && acc.entries + 1 <= lim.maxEntries
  }

  function Counted(acc: Progress, m: Member): Progress
    requires acc.root.Some? ==> '/' !in acc.root.value
  {
    acc.(entries := acc.entries + 1, root := Some(RootAfter(acc.root, m.name)))
  }

  lemma UnpackPlaces(dst: Path, lim: Limits, acc: Progress, m: Member, fault: Option<Fault>)
    requires acc.root.Some? ==> '/' !in acc.root.value
    requires Admitted(lim, acc, m) || (m.name != "" && Unpack(dst, lim, acc, m, fault).1.None?)
    ensures Unpack(dst, lim, acc, m, fault) ==
      Place(dst, lim, Counted(acc, m), RootAfter(acc.root, m.name), m, fault)
  {
  }

  lemma UnpackStops(dst: Path, lim: Limits, acc: Progress, m: Member, fault: Option<Fault>)
    requires (acc.root.Some? ==> '/' !in acc.root.value) && !Admitted(lim, acc, m)
    ensures var r := Unpack(dst, lim, acc, m, fault);
      && r.0 == acc.(entries := r.0.entries) && acc.entries <= r.0.entries
      && r.1 in {None, Some(EscapingName), Some(TypeNotAllowed), Some(TooManyFiles)}
      && (r.1.None? ==> m.name == "" && r.0 == acc)
  {
  }

  /** An archive, whether the tar stream breaks after its last readable member, and where and how the disk fails. */
  datatype Archive = Archive(members: seq<Member>, broken: bool, faults: map<nat, Fault>)

  function FaultAt(a: Archive, i: nat): Option<Fault> { if i in a.faults then Some(a.faults[i]) else None }

  function UnpackFirst(dst: Path, lim: Limits, a: Archive, n: nat): (r: (Progress, Option<Problem>))
    requires n <= |a.members|
    ensures r.0.root.Some? ==> '/' !in r.0.root.value
  {
    if n == 0 then (Fresh(dst), None)
    else
      var (acc, problem) := UnpackFirst(dst, lim, a, n - 1);
      if problem.Some? then (acc, problem) else Unpack(dst, lim, acc, a.members[n - 1], FaultAt(a, n - 1))
  }

  function UnpackAll(dst: Path, lim: Limits, a: Archive): (Progress, Option<Problem>) {
    var (acc, problem) := UnpackFirst(dst, lim, a, |a.members|);
    (acc, if problem.None? && a.broken then Some(BadTar) else problem)
  }

  // ---------------------------------------------------------------------------------------
  // Containment
  // ---------------------------------------------------------------------------------------

  lemma PlaceNeverEscapes(dst: Path, lim: Limits, acc: Progress, root: string, m: Member, fault: Option<Fault>)
    requires IsClean(dst) && '/' !in root && !EscapesArchiveRoot(m.name)
    ensures Place(dst, lim, acc, root, m, fault).1 != Some(PathEscapeAfterJoin)
  {
    AcceptedStaysInside(dst, root, m.name);
  }

  lemma UnpackNeverEscapes(dst: Path, lim: Limits, acc: Progress, m: Member, fault: Option<Fault>)
    requires IsClean(dst) && (acc.root.Some? ==> '/' !in acc.root.value)
    ensures Unpack(dst, lim, acc, m, fault).1 != Some(PathEscapeAfterJoin)
  {
    if Admitted(lim, acc, m) {
      UnpackPlaces(dst, lim, acc, m, fault);
      PlaceNeverEscapes(dst, lim, Counted(acc, m), RootAfter(acc.root, m.name), m, fault);
    } else {
      UnpackStops(dst, lim, acc, m, fault);
    }
  }

  /** The check after the join never fires: nothing that passes the name check can leave the directory. */
  lemma {:induction false} JoinCheckUnreachable(dst: Path, lim: Limits, a: Archive, n: nat)
    requires IsClean(dst) && n <= |a.members|
    ensures UnpackFirst(dst, lim, a, n).1 != Some(PathEscapeAfterJoin)
  {
    if n > 0 {
      JoinCheckUnreachable(dst, lim, a, n - 1);
      UnpackNeverEscapes(dst, lim, UnpackFirst(dst, lim, a, n - 1).0, a.members[n - 1], FaultAt(a, n - 1));
    }
  }

  /** `k` is `dst` or reached from it by going down only. */
  predicate Under(k: Path, dst: Path) { Above(dst, k) && ".." !in k.parts[|dst.parts|..] }

  lemma InsideMeansUnder(k: Path, dst: Path)
    ensures Inside(k, dst) <==> Under(k, dst)
  {
    if Inside(k, dst) {
      var below :| ".." !in below && k == Path(dst.rooted, dst.parts + below);
      assert k.parts[|dst.parts|..] == below;
    }
    if Under(k, dst) {
      assert k == Path(dst.rooted, dst.parts + k.parts[|dst.parts|..]);
    }
  }

  /** Nothing was made but the scratch directory and what is under it. */
  predicate Contained(tree: Tree, dst: Path) { forall k :: k in tree ==> Under(k, dst) }

  /** Making directories below the scratch directory makes none outside it. */
  lemma {:induction false} MkdirAllBelow(dst: Path, tree: Tree, p: Path, k: Path)
    requires Above(dst, p) && MkdirAll(dst, tree, p).Some? && k in MkdirAll(dst, tree, p).value && k !in tree
    ensures Above(dst, k)
    decreases |p.parts|
  {
    if k != p {
      MkdirAllBelow(dst, tree, Parent(p), k);
    }
  }

  lemma {:induction false} MkdirSomeBelow(dst: Path, tree: Tree, p: Path, room: nat, k: Path)
    requires Above(dst, p) && k in MkdirSome(dst, tree, p, room).0 && k !in tree
    ensures Above(dst, k)
    decreases |p.parts|
  {
    if k != p {
      MkdirSomeBelow(dst, tree, Parent(p), room, k);
    }
  }

  lemma UnderBetween(dst: Path, k: Path, p: Path)
    requires Under(p, dst) && Above(dst, k) && Above(k, p)
    ensures Under(k, dst)
  {
    var n := |dst.parts|;
    forall i | n <= i < |k.parts| ensures k.parts[i] != ".." {
      assert p.parts[n..][i - n] == p.parts[i] == k.parts[i];
    }
  }

  lemma MadeDirsContained(dst: Path, tree: Tree, p: Path, fault: Option<Fault>)
    requires Contained(tree, dst) && Under(p, dst)
    ensures Contained(MadeDirs(dst, tree, p, fault).0, dst)
  {
    var made := MadeDirs(dst, tree, p, fault).0;
    forall k | k in made && k !in tree ensures Under(k, dst) {
      if fault.Some? && fault.value.CannotMakeDirs? {
        MkdirSomeBelow(dst, tree, p, fault.value.room, k);
      } else {
        MkdirAllBelow(dst, tree, p, k);
      }
      UnderBetween(dst, k, p);
    }
  }

  lemma CopyContained(dst: Path, lim: Limits, acc: Progress, at: Path, m: Member, fault: Option<Fault>)
    requires Contained(acc.tree, dst) && Under(at, dst)
    ensures Contained(Copy(dst, lim, acc, at, m, fault).0.tree, dst)
  {
    if at != dst {
      UnderBetween(dst, Parent(at), at);
      MadeDirsContained(dst, acc.tree, Parent(at), fault);
    }
  }

  lemma PlaceContained(dst: Path, lim: Limits, acc: Progress, root: string, m: Member, fault: Option<Fault>)
    requires IsClean(dst) && '/' !in root && !EscapesArchiveRoot(m.name) && Contained(acc.tree, dst)
    ensures Contained(Place(dst, lim, acc, root, m, fault).0.tree, dst)
  {
    var target := Join(dst, Strip(root, m.name));
    AcceptedStaysInside(dst, root, m.name);
    InsideMeansUnder(target, dst);
    MadeDirsContained(dst, acc.tree, target, fault);
    CopyContained(dst, lim, acc, target, m, fault);
  }

  lemma UnpackContained(dst: Path, lim: Limits, acc: Progress, m: Member, fault: Option<Fault>)
    requires IsClean(dst) && (acc.root.Some? ==> '/' !in acc.root.value) && Contained(acc.tree, dst)
    ensures Contained(Unpack(dst, lim, acc, m, fault).0.tree, dst)
  {
    if Admitted(lim, acc, m) {
      UnpackPlaces(dst, lim, acc, m, fault);
      PlaceContained(dst, lim, Counted(acc, m), RootAfter(acc.root, m.name), m, fault);
    } else {
      UnpackStops(dst, lim, acc, m, fault);
    }
  }

  lemma {:induction false} UnpackFirstContained(dst: Path, lim: Limits, a: Archive, n: nat)
    requires IsClean(dst) && n <= |a.members|
    ensures Contained(UnpackFirst(dst, lim, a, n).0.tree, dst)
  {
    if n > 0 {
      UnpackFirstContained(dst, lim, a, n - 1);
      UnpackContained(dst, lim, UnpackFirst(dst, lim, a, n - 1).0, a.members[n - 1], FaultAt(a, n - 1));
    }
  }

  /** Every file and directory the loop ever makes, success or not, is inside the scratch directory. */
  lemma EverythingInside(dst: Path, lim: Limits, a: Archive, n: nat, k: Path)
    requires IsClean(dst) && n <= |a.members| && k in UnpackFirst(dst, lim, a, n).0.tree
    ensures Inside(k, dst)
  {
    UnpackFirstContained(dst, lim, a, n);
    InsideMeansUnder(k, dst);
  }

  // ---------------------------------------------------------------------------------------
  // Caps
  // ---------------------------------------------------------------------------------------

  function NamedCount(members: seq<Member>): nat {
    if members == [] then 0
    else NamedCount(members[..|members| - 1]) + if members[|members| - 1].name == "" then 0 else 1
  }

  predicate WithinCaps(lim: Limits, r: (Progress, Option<Problem>)) {
    && (r.1.None? ==> r.0.written == r.0.total <= lim.maxTotalBytes && r.0.entries <= lim.maxEntries)
    && r.0.written <= lim.maxTotalBytes + lim.maxFileBytes
  }

  lemma CopyWithinCaps(dst: Path, lim: Limits, acc: Progress, at: Path, m: Member, fault: Option<Fault>)
    requires WithinCaps(lim, (acc, None))
    ensures WithinCaps(lim, Copy(dst, lim, acc, at, m, fault))
    ensures Copy(dst, lim, acc, at, m, fault).0.entries == acc.entries
  {
  }

  lemma PlaceWithinCaps(dst: Path, lim: Limits, acc: Progress, root: string, m: Member, fault: Option<Fault>)
    requires WithinCaps(lim, (acc, None))
    ensures WithinCaps(lim, Place(dst, lim, acc, root, m, fault))
    ensures Place(dst, lim, acc, root, m, fault).0.entries == acc.entries
  {
    CopyWithinCaps(dst, lim, acc, Join(dst, Strip(root, m.name)), m, fault);
  }

  /** Within the caps, and as long as nothing went wrong with `named` members counted. */
  predicate Fits(lim: Limits, r: (Progress, Option<Problem>), named: nat) {
    WithinCaps(lim, r) && (r.1.None? ==> r.0.entries == named)
  }

  lemma UnpackFits(dst: Path, lim: Limits, acc: Progress, m: Member, fault: Option<Fault>)
    requires (acc.root.Some? ==> '/' !in acc.root.value) && WithinCaps(lim, (acc, None))
    ensures Fits(lim, Unpack(dst, lim, acc, m, fault), acc.entries + if m.name == "" then 0 else 1)
  {
    if Admitted(lim, acc, m) {
      UnpackPlaces(dst, lim, acc, m, fault);
      PlaceWithinCaps(dst, lim, Counted(acc, m), RootAfter(acc.root, m.name), m, fault);
    } else {
      UnpackStops(dst, lim, acc, m, fault);
    }
  }

  lemma NamedNext(members: seq<Member>, n: nat)
    requires 0 < n <= |members|
    ensures NamedCount(members[..n]) == NamedCount(members[..n - 1]) + if members[n - 1].name == "" then 0 else 1
  {
    assert members[..n][..n - 1] == members[..n - 1];
  }

  /**
   Bytes written, also by a copy that fails, never exceed the total cap by more than one file. When
   nothing went wrong they are within it, and the members counted are the named ones and within their cap.
   */
  lemma {:induction false} CapsHold(dst: Path, lim: Limits, a: Archive, n: nat)
    requires n <= |a.members|
    ensures Fits(lim, UnpackFirst(dst, lim, a, n), NamedCount(a.members[..n]))
  {
    if n > 0 {
      CapsHold(dst, lim, a, n - 1);
      var (acc, problem) := UnpackFirst(dst, lim, a, n - 1);
      NamedNext(a.members, n);
      if problem.None? {
        UnpackFits(dst, lim, acc, a.members[n - 1], FaultAt(a, n - 1));
      }
    }
  }

  // ---------------------------------------------------------------------------------------
  // The files are the last ones of their name
  // ---------------------------------------------------------------------------------------

  /** The archive root the first named member fixes, if any has been seen. */
  function RootOf(members: seq<Member>): (r: Option<string>)
    ensures r.Some? ==> '/' !in r.value
  {
    if members == [] then None
    else
      var before := RootOf(members[..|members| - 1]);
      var m := members[|members| - 1];
      if before.Some? || m.name == "" then before else Some(LeadingDir(m.name))
  }

  /** The archive root, once fixed, stays: later members are stripped by the same one. */
  lemma {:induction false} RootFixed(members: seq<Member>, n: nat)
    requires n <= |members| && RootOf(members[..n]).Some?
    ensures RootOf(members) == RootOf(members[..n])
  {
    if n < |members| {
      assert members[..|members| - 1][..n] == members[..n];
      RootFixed(members[..|members| - 1], n);
    } else {
      assert members[..n] == members;
    }
  }

  /** The member writes a regular file at `p`. */
  predicate Writes(dst: Path, root: Option<string>, m: Member, p: Path) {
    && m.kind.Regular? && m.name != "" && root.Some?
    && Strip(root.value, m.name) != "" && Join(dst, Strip(root.value, m.name)) == p
  }

  /** The body of the last of the members that writes at `p`. */
  function LastWrite(dst: Path, members: seq<Member>, p: Path): Option<Bytes> {
    if members == [] then None
    else if Writes(dst, RootOf(members), members[|members| - 1], p) then Some(members[|members| - 1].body)
    else LastWrite(dst, members[..|members| - 1], p)
  }

  function FileAt(tree: Tree, p: Path): Option<Bytes> {
    if p in tree && tree[p].File? then Some(tree[p].body) else None
  }

  lemma MadeDirsKeepsFiles(dst: Path, tree: Tree, at: Path, fault: Option<Fault>, p: Path)
    ensures FileAt(MadeDirs(dst, tree, at, fault).0, p) == FileAt(tree, p)
  {
  }

  lemma CopyFile(dst: Path, lim: Limits, acc: Progress, at: Path, m: Member, fault: Option<Fault>, p: Path)
    requires Delivered(m) && Copy(dst, lim, acc, at, m, fault).1.None?
    ensures FileAt(Copy(dst, lim, acc, at, m, fault).0.tree, p) == if p == at then Some(m.body) else FileAt(acc.tree, p)
    ensures Copy(dst, lim, acc, at, m, fault).0.root == acc.root
  {
    MadeDirsKeepsFiles(dst, acc.tree, Parent(at), fault, p);
  }

  lemma UnpackFile(dst: Path, lim: Limits, acc: Progress, m: Member, fault: Option<Fault>, p: Path)
    requires (acc.root.Some? ==> '/' !in acc.root.value) && Delivered(m)
    requires Unpack(dst, lim, acc, m, fault).1.None?
    ensures var acc' := Unpack(dst, lim, acc, m, fault).0;
      && acc'.root == (if acc.root.Some? || m.name == "" then acc.root else Some(LeadingDir(m.name)))
      && FileAt(acc'.tree, p) == if Writes(dst, acc'.root, m, p) then Some(m.body) else FileAt(acc.tree, p)
  {
    if m.name != "" {
      var root := RootAfter(acc.root, m.name);
      var at := Join(dst, Strip(root, m.name));
      if m.kind.Directory? {
        MadeDirsKeepsFiles(dst, acc.tree, at, fault, p);
      } else if Strip(root, m.name) != "" {
        CopyFile(dst, lim, acc.(entries := acc.entries + 1, root := Some(root)), at, m, fault, p);
      }
    }
  }

  /** The archive root is that of the members, and what is at `p` is what the last of them wrote there. */
  predicate FilesOf(dst: Path, acc: Progress, members: seq<Member>, p: Path) {
    acc.root == RootOf(members) && FileAt(acc.tree, p) == LastWrite(dst, members, p)
  }

  lemma FilesOfNext(dst: Path, acc: Progress, acc': Progress, members: seq<Member>, m: Member, p: Path)
    requires FilesOf(dst, acc, members, p)
    requires acc'.root == if acc.root.Some? || m.name == "" then acc.root else Some(LeadingDir(m.name))
    requires FileAt(acc'.tree, p) == if Writes(dst, acc'.root, m, p) then Some(m.body) else FileAt(acc.tree, p)
    ensures FilesOf(dst, acc', members + [m], p)
  {
    assert (members + [m])[..|members|] == members;
  }

  lemma UnpackFilesOf(
    dst: Path, lim: Limits, acc: Progress, members: seq<Member>, m: Member, fault: Option<Fault>, p: Path)
    requires FilesOf(dst, acc, members, p) && Delivered(m) && Unpack(dst, lim, acc, m, fault).1.None?
    ensures FilesOf(dst, Unpack(dst, lim, acc, m, fault).0, members + [m], p)
  {
    UnpackFile(dst, lim, acc, m, fault, p);
    FilesOfNext(dst, acc, Unpack(dst, lim, acc, m, fault).0, members, m, p);
  }

  lemma UnpackFirstNext(dst: Path, lim: Limits, a: Archive, n: nat)
    requires 0 < n <= |a.members| && UnpackFirst(dst, lim, a, n).1.None?
    ensures var (acc, problem) := UnpackFirst(dst, lim, a, n - 1);
      problem.None? && UnpackFirst(dst, lim, a, n) == Unpack(dst, lim, acc, a.members[n - 1], FaultAt(a, n - 1))
  {
  }

  /** On success the files are, at every path, the last member of that stripped name, and nothing else is a file. */
  lemma {:induction false} LastMemberWins(dst: Path, lim: Limits, a: Archive, n: nat, p: Path)
    requires n <= |a.members| && (forall m :: m in a.members ==> Delivered(m))
    requires UnpackFirst(dst, lim, a, n).1.None?
    ensures FilesOf(dst, UnpackFirst(dst, lim, a, n).0, a.members[..n], p)
  {
    if n > 0 {
      var before, m := a.members[..n - 1], a.members[n - 1];
      assert m in a.members && a.members[..n] == before + [m];
      UnpackFirstNext(dst, lim, a, n);
      LastMemberWins(dst, lim, a, n - 1, p);
      UnpackFilesOf(dst, lim, UnpackFirst(dst, lim, a, n - 1).0, before, m, FaultAt(a, n - 1), p);
    }
  }

  // Where the members go, read off their names.

  /** The first named member begins with `d`. */
  ghost predicate RootIs(members: seq<Member>, d: string) {
    exists i :: 0 <= i < |members| && members[i].name != "" && Begins(members[i].name, d) &&
      forall j :: 0 <= j < i ==> members[j].name == ""
  }

  lemma {:induction false} RootOfNone(members: seq<Member>)
    requires forall j :: 0 <= j < |members| ==> members[j].name == ""
    ensures RootOf(members) == None
  {
    if members != [] {
      RootOfNone(members[..|members| - 1]);
    }
  }

  lemma {:induction false} RootOfIs(members: seq<Member>, d: string)
    requires RootIs(members, d)
    ensures RootOf(members) == Some(d)
  {
    var i :| 0 <= i < |members| && members[i].name != "" && Begins(members[i].name, d) &&
      forall j :: 0 <= j < i ==> members[j].name == "";
    var k := |members| - 1;
    if i == k {
      RootOfNone(members[..k]);
      LeadingDirIs(members[k].name, d);
    } else {
      assert members[..k][i] == members[i];
      RootOfIs(members[..k], d);
    }
  }

  /** `rests` gives each named member's name below the archive root `d`. */
  predicate RestsOf(members: seq<Member>, d: string, rests: seq<string>) {
    |rests| == |members| &&
    forall i :: 0 <= i < |members| && members[i].name != "" ==> Stripped(d, members[i].name, rests[i])
  }

  /** The body of the last regular member whose name below the root has the components `below`. */
  function LastBody(members: seq<Member>, rests: seq<string>, below: seq<string>): Option<Bytes>
    requires |rests| == |members|
  {
    if members == [] then None
    else
      var k := |members| - 1;
      if members[k].kind.Regular? && members[k].name != "" && rests[k] != "" && Kept(Split(rests[k])) == below
      then Some(members[k].body) else LastBody(members[..k], rests[..k], below)
  }

  lemma PlaceOf(dst: Path, d: string, name: string, rest: string, below: seq<string>)
    requires IsClean(dst) && '/' !in d && !EscapesArchiveRoot(name) && Stripped(d, name, rest)
    ensures Strip(d, name) == rest
    ensures Join(dst, rest) == Path(dst.rooted, dst.parts + below) <==> Kept(Split(rest)) == below
  {
    StripIs(d, name, rest);
    StripKeepsOut(d, name);
    JoinDescends(dst, rest);
    var n := |dst.parts|;
    assert (dst.parts + below)[n..] == below && (dst.parts + Kept(Split(rest)))[n..] == Kept(Split(rest));
  }

  lemma {:induction false} LastWriteIsLastBody(
    dst: Path, members: seq<Member>, d: string, rests: seq<string>, below: seq<string>)
    requires IsClean(dst) && '/' !in d && RestsOf(members, d, rests)
    requires forall i :: 0 <= i < |members| ==> !EscapesArchiveRoot(members[i].name)
    requires RootOf(members) == None || RootOf(members) == Some(d)
    ensures LastWrite(dst, members, Path(dst.rooted, dst.parts + below)) == LastBody(members, rests, below)
  {
    if members != [] {
      var k := |members| - 1;
      LastWriteIsLastBody(dst, members[..k], d, rests[..k], below);
      if members[k].name != "" {
        PlaceOf(dst, d, members[k].name, rests[k], below);
      }
    }
  }

  predicate PassedUnpack(m: Member) {
    m.name == "" || (!EscapesArchiveRoot(m.name) && (m.kind.Regular? || m.kind.Directory?))
  }

  lemma {:induction false} UnpackedPassed(dst: Path, lim: Limits, a: Archive, n: nat, i: nat)
    requires i < n <= |a.members| && UnpackFirst(dst, lim, a, n).1.None?
    ensures PassedUnpack(a.members[i])
  {
    if i < n - 1 {
      UnpackedPassed(dst, lim, a, n - 1, i);
    }
  }

  /**
   When an archive unpacks, each place below the scratch directory holds the body of the last regular
   member of that place: its name without the directory that the first named member begins with.
   */
  lemma MembersLandStripped(dst: Path, lim: Limits, a: Archive, d: string, rests: seq<string>, below: seq<string>)
    requires IsClean(dst) && (forall m :: m in a.members ==> Delivered(m)) && UnpackAll(dst, lim, a).1.None?
    requires RootIs(a.members, d) && RestsOf(a.members, d, rests)
    ensures FileAt(UnpackAll(dst, lim, a).0.tree, Path(dst.rooted, dst.parts + below)) ==
      LastBody(a.members, rests, below)
  {
    var n := |a.members|;
    assert a.members[..n] == a.members;
    LastMemberWins(dst, lim, a, n, Path(dst.rooted, dst.parts + below));
    forall i | 0 <= i < n ensures !EscapesArchiveRoot(a.members[i].name) {
      UnpackedPassed(dst, lim, a, n, i);
    }
    RootOfIs(a.members, d);
    LastWriteIsLastBody(dst, a.members, d, rests, below);
  }

  // ---------------------------------------------------------------------------------------
  // The directories are those the members need
  // ---------------------------------------------------------------------------------------

  /** Everything made is in a directory. */
  predicate Closed(dst: Path, tree: Tree) {
    forall k :: k in tree && k.parts != [] ==> IsDir(dst, tree, Parent(k))
  }

  lemma {:induction false} AncestorsAreDirs(dst: Path, tree: Tree, p: Path, k: Path)
    requires Closed(dst, tree) && IsDir(dst, tree, p) && Above(k, p)
    ensures IsDir(dst, tree, k)
    decreases |p.parts|
  {
    if k != p && !Above(p, dst) {
      AncestorsAreDirs(dst, tree, Parent(p), k);
    }
  }

  lemma AboveParent(k: Path, p: Path)
    requires p.parts != []
    ensures Above(k, p) <==> k == p || Above(k, Parent(p))
  {
    if Above(k, p) && k != p {
      assert k.parts == p.parts[..|k.parts|] == Parent(p).parts[..|k.parts|];
    }
  }

  lemma {:induction false} MkdirAllDirs(dst: Path, tree: Tree, p: Path, k: Path)
    requires Closed(dst, tree) && p.rooted == dst.rooted && MkdirAll(dst, tree, p).Some?
    ensures IsDir(dst, MkdirAll(dst, tree, p).value, k) <==> IsDir(dst, tree, k) || Above(k, p)
    decreases |p.parts|
  {
    if p.parts == [] || IsDir(dst, tree, p) {
      if Above(k, p) {
        AncestorsAreDirs(dst, tree, p, k);
      }
    } else {
      MkdirAllDirs(dst, tree, Parent(p), k);
      AboveParent(k, p);
    }
  }

  lemma {:induction false} MkdirAllClosed(dst: Path, tree: Tree, p: Path)
    requires Closed(dst, tree) && p.rooted == dst.rooted && MkdirAll(dst, tree, p).Some?
    ensures Closed(dst, MkdirAll(dst, tree, p).value)
    decreases |p.parts|
  {
    if !(p.parts == [] || IsDir(dst, tree, p)) {
      MkdirAllClosed(dst, tree, Parent(p));
    }
  }

  /** A file is put where there is no directory; the directories stay as they are. */
  lemma FileKeepsDirs(dst: Path, tree: Tree, at: Path, body: Bytes, k: Path)
    requires Closed(dst, tree) && !IsDir(dst, tree, at) && (at.parts != [] ==> IsDir(dst, tree, Parent(at)))
    ensures IsDir(dst, tree[at := File(body)], k) <==> IsDir(dst, tree, k)
    ensures Closed(dst, tree[at := File(body)])
  {
  }

  /** The member needs `k` to be a directory: it is one, or in it, or a file in it. */
  predicate Needs(dst: Path, root: Option<string>, m: Member, k: Path) {
    && m.name != "" && root.Some? && Strip(root.value, m.name) != ""
    && var target := Join(dst, Strip(root.value, m.name));
       Above(k, if m.kind.Directory? then target else Parent(target))
  }

  predicate Needed(dst: Path, members: seq<Member>, k: Path) {
    members != [] &&
    (Needs(dst, RootOf(members), members[|members| - 1], k) || Needed(dst, members[..|members| - 1], k))
  }

  lemma CopyDirs(dst: Path, lim: Limits, acc: Progress, at: Path, m: Member, fault: Option<Fault>, k: Path)
    requires Closed(dst, acc.tree) && at.rooted == dst.rooted && Copy(dst, lim, acc, at, m, fault).1.None?
    ensures var tree := Copy(dst, lim, acc, at, m, fault).0.tree;
      Closed(dst, tree) && (IsDir(dst, tree, k) <==> IsDir(dst, acc.tree, k) || Above(k, Parent(at)))
  {
    MkdirAllDirs(dst, acc.tree, Parent(at), k);
    MkdirAllClosed(dst, acc.tree, Parent(at));
    FileKeepsDirs(dst, MkdirAll(dst, acc.tree, Parent(at)).value, at, Copied(lim, m, fault), k);
  }

  /** From `tree` to `acc'` the directories that `m` needs were made and no others. */
  predicate MadeFor(dst: Path, tree: Tree, acc': Progress, m: Member, k: Path) {
    Closed(dst, acc'.tree) && (IsDir(dst, acc'.tree, k) <==> IsDir(dst, tree, k) || Needs(dst, acc'.root, m, k))
  }

  lemma PlaceDirs(dst: Path, lim: Limits, acc: Progress, root: string, m: Member, fault: Option<Fault>, k: Path)
    requires Closed(dst, acc.tree) && acc.root == Some(root) && m.name != ""
    requires Place(dst, lim, acc, root, m, fault).1.None?
    ensures MadeFor(dst, acc.tree, Place(dst, lim, acc, root, m, fault).0, m, k)
  {
    var name := Strip(root, m.name);
    if name != "" {
      var target := Join(dst, name);
      if m.kind.Directory? {
        MkdirAllDirs(dst, acc.tree, target, k);
        MkdirAllClosed(dst, acc.tree, target);
      } else {
        CopyDirs(dst, lim, acc, target, m, fault, k);
      }
    }
  }

  predicate DirsOf(dst: Path, acc: Progress, members: seq<Member>, k: Path) {
    && acc.root == RootOf(members) && Closed(dst, acc.tree)
    && (IsDir(dst, acc.tree, k) <==> Above(k, dst) || Needed(dst, members, k))
  }

  lemma DirsOfNext(dst: Path, acc: Progress, acc': Progress, members: seq<Member>, m: Member, k: Path)
    requires DirsOf(dst, acc, members, k) && MadeFor(dst, acc.tree, acc', m, k)
    requires acc'.root == if acc.root.Some? || m.name == "" then acc.root else Some(LeadingDir(m.name))
    ensures DirsOf(dst, acc', members + [m], k)
  {
    assert (members + [m])[..|members|] == members;
  }

  lemma UnpackMakesDirs(dst: Path, lim: Limits, acc: Progress, m: Member, fault: Option<Fault>, k: Path)
    requires (acc.root.Some? ==> '/' !in acc.root.value) && Closed(dst, acc.tree)
    requires Unpack(dst, lim, acc, m, fault).1.None?
    ensures MadeFor(dst, acc.tree, Unpack(dst, lim, acc, m, fault).0, m, k)
  {
    if m.name != "" {
      UnpackPlaces(dst, lim, acc, m, fault);
      PlaceDirs(dst, lim, Counted(acc, m), RootAfter(acc.root, m.name), m, fault, k);
    }
  }

  lemma UnpackDirs(
    dst: Path, lim: Limits, acc: Progress, members: seq<Member>, m: Member, fault: Option<Fault>, k: Path)
    requires DirsOf(dst, acc, members, k) && Delivered(m) && Unpack(dst, lim, acc, m, fault).1.None?
    ensures DirsOf(dst, Unpack(dst, lim, acc, m, fault).0, members + [m], k)
  {
    UnpackFile(dst, lim, acc, m, fault, k);
    UnpackMakesDirs(dst, lim, acc, m, fault, k);
    DirsOfNext(dst, acc, Unpack(dst, lim, acc, m, fault).0, members, m, k);
  }

  /**
   On success the directories are those the scratch directory is in, the directory members with the
   directories they are in, and the directories the file members are in, and nothing else.
   */
  lemma {:induction false} DirectoriesNeeded(dst: Path, lim: Limits, a: Archive, n: nat, k: Path)
    requires n <= |a.members| && (forall m :: m in a.members ==> Delivered(m))
    requires UnpackFirst(dst, lim, a, n).1.None?
    ensures DirsOf(dst, UnpackFirst(dst, lim, a, n).0, a.members[..n], k)
  {
    if n > 0 {
      var before, m := a.members[..n - 1], a.members[n - 1];
      assert m in a.members && a.members[..n] == before + [m];
      UnpackFirstNext(dst, lim, a, n);
      DirectoriesNeeded(dst, lim, a, n - 1, k);
      UnpackDirs(dst, lim, UnpackFirst(dst, lim, a, n - 1).0, before, m, FaultAt(a, n - 1), k);
    }
  }

  // ---------------------------------------------------------------------------------------
  // What extracts
  // ---------------------------------------------------------------------------------------

  /** The member has a place of its own below the archive root. */
  predicate Placed(root: Option<string>, m: Member) {
    m.name != "" && root.Some? && Strip(root.value, m.name) != ""
  }

  /** The bytes of the regular members that have a place. */
  function BodyBytes(members: seq<Member>): nat {
    if members == [] then 0
    else
      var m := members[|members| - 1];
      BodyBytes(members[..|members| - 1]) + if m.kind.Regular? && Placed(RootOf(members), m) then |m.body| else 0
  }

  predicate MemberFits(lim: Limits, root: Option<string>, m: Member) {
    && PassedUnpack(m)
    && (m.kind.Regular? && Placed(root, m) ==> m.size <= lim.maxFileBytes && m.intact)
  }

  predicate Sizes(lim: Limits, members: seq<Member>) {
    && NamedCount(members) <= lim.maxEntries && BodyBytes(members) <= lim.maxTotalBytes
    && forall i :: 0 <= i < |members| ==> MemberFits(lim, RootOf(members), members[i])
  }

  /** No file is where a directory is, or is needed. */
  ghost predicate NoClash(dst: Path, members: seq<Member>) {
    forall k :: LastWrite(dst, members, k).Some? ==> !Above(k, dst) && !Needed(dst, members, k)
  }

  ghost predicate Extractable(dst: Path, lim: Limits, members: seq<Member>) {
    Sizes(lim, members) && NoClash(dst, members)
  }

  /** No file of the members stands at `p` or above it. */
  ghost predicate Clear(dst: Path, members: seq<Member>, p: Path) {
    forall k :: Above(k, p) ==> LastWrite(dst, members, k).None?
  }

  /** The member can be put at `target` after the members before it. */
  ghost predicate RoomFor(dst: Path, lim: Limits, before: seq<Member>, m: Member, target: Path) {
    if m.kind.Directory? then Clear(dst, before, target)
    else
      && m.size <= lim.maxFileBytes && m.intact && BodyBytes(before) + |m.body| <= lim.maxTotalBytes
      && Clear(dst, before, Parent(target)) && !Above(target, dst) && !Needed(dst, before, target)
  }

  ghost predicate MemberOk(dst: Path, lim: Limits, before: seq<Member>, m: Member) {
    m.name == "" ||
      (&& PassedUnpack(m) && NamedCount(before) + 1 <= lim.maxEntries
       && var name := Strip(RootAfter(RootOf(before), m.name), m.name);
          name == "" || RoomFor(dst, lim, before, m, Join(dst, name)))
  }

  predicate NoFileAbove(dst: Path, tree: Tree, k: Path) { Above(k, dst) ==> FileAt(tree, k).None? }

  lemma {:induction false} MkdirAllIff(dst: Path, tree: Tree, p: Path)
    requires Closed(dst, tree) && p.rooted == dst.rooted && forall k :: NoFileAbove(dst, tree, k)
    ensures MkdirAll(dst, tree, p).Some? <==> forall k :: Above(k, p) ==> FileAt(tree, k).None?
    decreases |p.parts|
  {
    if p.parts == [] || IsDir(dst, tree, p) {
      forall k | Above(k, p) ensures FileAt(tree, k).None? {
        assert NoFileAbove(dst, tree, k);
        if p.parts != [] {
          AncestorsAreDirs(dst, tree, p, k);
        }
      }
    } else if p in tree {
      assert Above(p, p) && FileAt(tree, p).Some?;
    } else {
      MkdirAllIff(dst, tree, Parent(p));
      forall k ensures Above(k, p) <==> k == p || Above(k, Parent(p)) {
        AboveParent(k, p);
      }
    }
  }

  lemma CopyKeepsAbove(dst: Path, lim: Limits, acc: Progress, at: Path, m: Member, fault: Option<Fault>, k: Path)
    requires NoFileAbove(dst, acc.tree, k)
    ensures NoFileAbove(dst, Copy(dst, lim, acc, at, m, fault).0.tree, k)
  {
    MadeDirsKeepsFiles(dst, acc.tree, Parent(at), fault, k);
  }

  lemma UnpackKeepsAbove(dst: Path, lim: Limits, acc: Progress, m: Member, fault: Option<Fault>, k: Path)
    requires (acc.root.Some? ==> '/' !in acc.root.value) && NoFileAbove(dst, acc.tree, k)
    ensures NoFileAbove(dst, Unpack(dst, lim, acc, m, fault).0.tree, k)
  {
    if Admitted(lim, acc, m) {
      var root := RootAfter(acc.root, m.name);
      var target := Join(dst, Strip(root, m.name));
      UnpackPlaces(dst, lim, acc, m, fault);
      MadeDirsKeepsFiles(dst, acc.tree, target, fault, k);
      CopyKeepsAbove(dst, lim, Counted(acc, m), target, m, fault, k);
    } else {
      UnpackStops(dst, lim, acc, m, fault);
    }
  }

  lemma {:induction false} NeverFileAbove(dst: Path, lim: Limits, a: Archive, n: nat, k: Path)
    requires n <= |a.members|
    ensures NoFileAbove(dst, UnpackFirst(dst, lim, a, n).0.tree, k)
  {
    if n > 0 {
      NeverFileAbove(dst, lim, a, n - 1, k);
      UnpackKeepsAbove(dst, lim, UnpackFirst(dst, lim, a, n - 1).0, a.members[n - 1], FaultAt(a, n - 1), k);
    }
  }

  lemma UnpackTotal(dst: Path, lim: Limits, acc: Progress, m: Member, fault: Option<Fault>)
    requires (acc.root.Some? ==> '/' !in acc.root.value) && Delivered(m) && Unpack(dst, lim, acc, m, fault).1.None?
    ensures var acc' := Unpack(dst, lim, acc, m, fault).0;
      acc'.total == acc.total + if m.kind.Regular? && Placed(acc'.root, m) then |m.body| else 0
  {
    if m.name != "" {
      UnpackPlaces(dst, lim, acc, m, fault);
    }
  }

  lemma BodyBytesNext(members: seq<Member>, n: nat)
    requires 0 < n <= |members|
    ensures var m := members[n - 1];
      BodyBytes(members[..n]) ==
        BodyBytes(members[..n - 1]) + if m.kind.Regular? && Placed(RootOf(members[..n]), m) then |m.body| else 0
  {
    assert members[..n][..n - 1] == members[..n - 1];
  }

  lemma {:induction false} TotalIsBodyBytes(dst: Path, lim: Limits, a: Archive, n: nat)
    requires n <= |a.members| && (forall m :: m in a.members ==> Delivered(m))
    requires UnpackFirst(dst, lim, a, n).1.None?
    ensures UnpackFirst(dst, lim, a, n).0.total == BodyBytes(a.members[..n])
  {
    if n > 0 {
      var m, acc := a.members[n - 1], UnpackFirst(dst, lim, a, n - 1).0;
      assert m in a.members;
      UnpackFirstNext(dst, lim, a, n);
      TotalIsBodyBytes(dst, lim, a, n - 1);
      LastMemberWins(dst, lim, a, n, dst);
      UnpackTotal(dst, lim, acc, m, FaultAt(a, n - 1));
      BodyBytesNext(a.members, n);
    }
  }

  /** What the loop carries after the members `before`, all unpacked. */
  ghost predicate Tracks(dst: Path, acc: Progress, before: seq<Member>) {
    && acc.entries == NamedCount(before) && acc.total == BodyBytes(before)
    && forall k :: FilesOf(dst, acc, before, k) && DirsOf(dst, acc, before, k) && NoFileAbove(dst, acc.tree, k)
  }

  lemma RunTracks(dst: Path, lim: Limits, a: Archive, n: nat)
    requires n <= |a.members| && (forall m :: m in a.members ==> Delivered(m))
    requires UnpackFirst(dst, lim, a, n).1.None?
    ensures Tracks(dst, UnpackFirst(dst, lim, a, n).0, a.members[..n])
  {
    CapsHold(dst, lim, a, n);
    TotalIsBodyBytes(dst, lim, a, n);
    var acc, before := UnpackFirst(dst, lim, a, n).0, a.members[..n];
    forall k ensures FilesOf(dst, acc, before, k) && DirsOf(dst, acc, before, k) && NoFileAbove(dst, acc.tree, k) {
      LastMemberWins(dst, lim, a, n, k);
      DirectoriesNeeded(dst, lim, a, n, k);
      NeverFileAbove(dst, lim, a, n, k);
    }
  }

  lemma ClearIff(dst: Path, acc: Progress, before: seq<Member>, p: Path)
    requires Tracks(dst, acc, before) && p.rooted == dst.rooted
    ensures MkdirAll(dst, acc.tree, p).Some? <==> Clear(dst, before, p)
  {
    assert DirsOf(dst, acc, before, p);
    assert forall k :: FilesOf(dst, acc, before, k) ==> FileAt(acc.tree, k) == LastWrite(dst, before, k);
    MkdirAllIff(dst, acc.tree, p);
  }

  lemma CopyOkIff(dst: Path, lim: Limits, acc: Progress, at: Path, m: Member, before: seq<Member>)
    requires Tracks(dst, acc, before) && at.rooted == dst.rooted && m.kind.Regular? && Delivered(m)
    ensures Copy(dst, lim, acc, at, m, None).1.None? <==> RoomFor(dst, lim, before, m, at)
  {
    ClearIff(dst, acc, before, Parent(at));
    assert DirsOf(dst, acc, before, at);
    var made := MkdirAll(dst, acc.tree, Parent(at));
    if made.Some? {
      MkdirAllDirs(dst, acc.tree, Parent(at), at);
      assert Above(at, Parent(at)) ==> Above(at, dst);
      assert Copied(lim, m, None) == m.body || m.size > lim.maxFileBytes;
    }
  }

  lemma UnpackOkIff(dst: Path, lim: Limits, acc: Progress, m: Member, before: seq<Member>)
    requires IsClean(dst) && Tracks(dst, acc, before) && Delivered(m) && acc.root == RootOf(before)
    ensures Unpack(dst, lim, acc, m, None).1.None? <==> MemberOk(dst, lim, before, m)
  {
    if Admitted(lim, acc, m) {
      var root := RootAfter(acc.root, m.name);
      var target := Join(dst, Strip(root, m.name));
      UnpackPlaces(dst, lim, acc, m, None);
      AcceptedStaysInside(dst, root, m.name);
      var counted := Counted(acc, m);
      if m.kind.Directory? {
        ClearIff(dst, acc, before, target);
      } else {
        CopyOkIff(dst, lim, acc, target, m, before);
      }
    } else {
      UnpackStops(dst, lim, acc, m, None);
    }
  }

  lemma {:induction false} NoRootNoNames(members: seq<Member>, i: nat)
    requires RootOf(members).None? && i < |members|
    ensures members[i].name == ""
  {
    if i < |members| - 1 {
      NoRootNoNames(members[..|members| - 1], i);
    }
  }

  lemma AppendRoot(before: seq<Member>, m: Member)
    ensures RootOf(before + [m]) ==
      if m.name == "" then RootOf(before) else Some(RootAfter(RootOf(before), m.name))
  {
    assert (before + [m])[..|before|] == before;
  }

  /** The size conditions of one more member. */
  predicate SizesOk(lim: Limits, before: seq<Member>, m: Member) {
    m.name == "" ||
      (&& PassedUnpack(m) && NamedCount(before) + 1 <= lim.maxEntries
       && (m.kind.Regular? && Strip(RootAfter(RootOf(before), m.name), m.name) != "" ==>
             m.size <= lim.maxFileBytes && m.intact && BodyBytes(before) + |m.body| <= lim.maxTotalBytes))
  }

  lemma SizesNext(lim: Limits, before: seq<Member>, m: Member)
    ensures Sizes(lim, before + [m]) <==> Sizes(lim, before) && SizesOk(lim, before, m)
  {
    var members, n := before + [m], |before|;
    assert members[..n] == before;
    AppendRoot(before, m);
    forall i | 0 <= i < n
      ensures MemberFits(lim, RootOf(members), members[i]) <==> MemberFits(lim, RootOf(before), before[i])
    {
      if RootOf(before).None? {
        NoRootNoNames(before, i);
      }
    }
    if Sizes(lim, members) {
      assert MemberFits(lim, RootOf(members), members[n]);
      forall i | 0 <= i < n ensures MemberFits(lim, RootOf(before), before[i]) {
        assert MemberFits(lim, RootOf(members), members[i]);
      }
    }
  }

  /** The place conditions of one more member. */
  ghost predicate PlaceOk(dst: Path, before: seq<Member>, m: Member) {
    var name := if m.name == "" then "" else Strip(RootAfter(RootOf(before), m.name), m.name);
    name == "" ||
      (var target := Join(dst, name);
       if m.kind.Directory? then Clear(dst, before, target)
       else Clear(dst, before, Parent(target)) && !Above(target, dst) && !Needed(dst, before, target))
  }

  lemma NextAt(dst: Path, before: seq<Member>, m: Member, k: Path)
    ensures var root := RootOf(before + [m]);
      && LastWrite(dst, before + [m], k) ==
           (if Writes(dst, root, m, k) then Some(m.body) else LastWrite(dst, before, k))
      && (Needed(dst, before + [m], k) <==> Needs(dst, root, m, k) || Needed(dst, before, k))
  {
    assert (before + [m])[..|before|] == before;
  }

  lemma NoClashKept(dst: Path, before: seq<Member>, m: Member)
    requires PassedUnpack(m) && NoClash(dst, before) && PlaceOk(dst, before, m)
    ensures NoClash(dst, before + [m])
  {
    AppendRoot(before, m);
    forall k | LastWrite(dst, before + [m], k).Some? ensures !Above(k, dst) && !Needed(dst, before + [m], k) {
      NextAt(dst, before, m, k);
    }
  }

  lemma NoClashBefore(dst: Path, before: seq<Member>, m: Member)
    requires PassedUnpack(m) && NoClash(dst, before + [m])
    ensures NoClash(dst, before) && PlaceOk(dst, before, m)
  {
    AppendRoot(before, m);
    forall k
      ensures LastWrite(dst, before, k).Some? ==> !Above(k, dst) && !Needed(dst, before + [m], k)
      ensures Writes(dst, RootOf(before + [m]), m, k) ==> !Above(k, dst) && !Needed(dst, before, k)
    {
      NextAt(dst, before, m, k);
    }
    forall k ensures Needs(dst, RootOf(before + [m]), m, k) ==> LastWrite(dst, before, k).None? {
      NextAt(dst, before, m, k);
    }
  }

  lemma ExtractableNext(dst: Path, lim: Limits, before: seq<Member>, m: Member)
    ensures Extractable(dst, lim, before + [m]) <==> Extractable(dst, lim, before) && MemberOk(dst, lim, before, m)
  {
    SizesNext(lim, before, m);
    if PassedUnpack(m) && NoClash(dst, before) && PlaceOk(dst, before, m) {
      NoClashKept(dst, before, m);
    }
    if PassedUnpack(m) && NoClash(dst, before + [m]) {
      NoClashBefore(dst, before, m);
    }
    assert MemberOk(dst, lim, before, m) <==> SizesOk(lim, before, m) && PlaceOk(dst, before, m);
  }

  lemma {:induction false} ExtractsFirstIff(dst: Path, lim: Limits, a: Archive, n: nat)
    requires IsClean(dst) && n <= |a.members| && (forall m :: m in a.members ==> Delivered(m)) && a.faults == map[]
    ensures UnpackFirst(dst, lim, a, n).1.None? <==> Extractable(dst, lim, a.members[..n])
  {
    if n > 0 {
      var before, m := a.members[..n - 1], a.members[n - 1];
      assert m in a.members && a.members[..n] == before + [m];
      ExtractsFirstIff(dst, lim, a, n - 1);
      ExtractableNext(dst, lim, before, m);
      if UnpackFirst(dst, lim, a, n - 1).1.None? {
        RunTracks(dst, lim, a, n - 1);
        LastMemberWins(dst, lim, a, n - 1, dst);
        UnpackOkIff(dst, lim, UnpackFirst(dst, lim, a, n - 1).0, m, before);
      }
    }
  }

  /**
   On a disk that does not fail, an archive is extracted exactly when it is whole, every named member has an
   accepted name and type, the caps hold, and no member needs a directory where another leaves a file.
   */
  lemma ExtractsIff(dst: Path, lim: Limits, a: Archive)
    requires IsClean(dst) && (forall m :: m in a.members ==> Delivered(m)) && a.faults == map[]
    ensures UnpackAll(dst, lim, a).1.None? <==> !a.broken && Extractable(dst, lim, a.members)
  {
    assert a.members[..|a.members|] == a.members;
    ExtractsFirstIff(dst, lim, a, |a.members|);
  }

  /** Under the default caps, for a plan that allows `mb` megabytes compressed. */
  lemma DefaultLimitsExtractIff(dst: Path, mb: nat, a: Archive)
    requires IsClean(dst) && (forall m :: m in a.members ==> Delivered(m)) && a.faults == map[]
    ensures UnpackAll(dst, DefaultLimits(mb), a).1.None? <==>
      && !a.broken && NoClash(dst, a.members)
      && NamedCount(a.members) <= 10_000 && 2 * BodyBytes(a.members) <= 5 * 1_048_576 * mb
      && (forall i :: 0 <= i < |a.members| ==> PassedUnpack(a.members[i]))
      && (forall i :: 0 <= i < |a.members| && a.members[i].kind.Regular? && Placed(RootOf(a.members), a.members[i]) ==>
            a.members[i].intact && a.members[i].size <= 268_435_456)
  {
    ExtractsIff(dst, DefaultLimits(mb), a);
    assert DefaultLimits(mb).maxFileBytes == 268_435_456;
  }

  // ---------------------------------------------------------------------------------------
  // The shape check of the deploy path
  // ---------------------------------------------------------------------------------------

  const MAX_SOURCE_FILES := 10_000

  predicate IsLink(m: Member) { m.kind.Symlink? || m.kind.HardLink? }

  predicate ShapeOk(m: Member) {
    !EscapesArchiveRoot(m.name) && (IsLink(m) ==> !EscapesArchiveRoot(m.linkname))
  }

  method ValidateTarballShape(a: Archive) returns (problem: Option<Problem>)
    ensures problem.None? <==>
      (forall i :: 0 <= i < |a.members| ==> ShapeOk(a.members[i])) && |a.members| <= MAX_SOURCE_FILES && !a.broken
    ensures problem == Some(TooManyFiles) ==>
      |a.members| > MAX_SOURCE_FILES && forall i :: 0 <= i <= MAX_SOURCE_FILES ==> ShapeOk(a.members[i])
  {
    var count := 0;
    for i := 0 to |a.members|
      invariant count == i <= MAX_SOURCE_FILES
      invariant forall j :: 0 <= j < i ==> ShapeOk(a.members[j])
    {
      var m := a.members[i];
      if EscapesArchiveRoot(m.name) {
        return Some(EscapingName);
      }
      if IsLink(m) && EscapesArchiveRoot(m.linkname) {
        return Some(EscapingLink);
      }
      count := count + 1;
      if count > MAX_SOURCE_FILES {
        return Some(TooManyFiles);
      }
    }
    if a.broken {
      return Some(BadTar);
    }
    return None;
  }

  lemma {:induction false} AllNamedCount(members: seq<Member>)
    requires forall i :: 0 <= i < |members| ==> members[i].name != ""
    ensures NamedCount(members) == |members|
  {
    if members != [] {
      AllNamedCount(members[..|members| - 1]);
    }
  }

  predicate ShapeAccepts(a: Archive) {
    (forall i :: 0 <= i < |a.members| ==> ShapeOk(a.members[i])) && |a.members| <= MAX_SOURCE_FILES && !a.broken
  }

  /**
   An archive that unpacks also passes the shape check exactly when it has at most ten thousand
   headers and no nameless link with an escaping target. Without nameless headers, and with an
   entry cap no larger than ten thousand, it always passes.
   */
  lemma UnpackedPassesShapeIff(dst: Path, lim: Limits, a: Archive)
    requires UnpackAll(dst, lim, a).1.None?
    ensures ShapeAccepts(a) <==>
      && |a.members| <= MAX_SOURCE_FILES
      && forall i :: 0 <= i < |a.members| && a.members[i].name == "" && IsLink(a.members[i]) ==>
           !EscapesArchiveRoot(a.members[i].linkname)
    ensures lim.maxEntries <= MAX_SOURCE_FILES && (forall i :: 0 <= i < |a.members| ==> a.members[i].name != "") ==>
      ShapeAccepts(a)
  {
    var n := |a.members|;
    forall i | 0 <= i < n ensures PassedUnpack(a.members[i]) {
      UnpackedPassed(dst, lim, a, n, i);
    }
    CapsHold(dst, lim, a, n);
    assert a.members[..n] == a.members;
    if forall i :: 0 <= i < n ==> a.members[i].name != "" {
      AllNamedCount(a.members);
    }
  }

  /** Under the limits of a plan, so does every archive without nameless members, within 2.5 times the upload cap. */
  lemma PlanLimitsPassShape(dst: Path, sourceTarballMaxMB: nat, a: Archive)
    requires UnpackAll(dst, DefaultLimits(sourceTarballMaxMB), a).1.None?
    requires forall i :: 0 <= i < |a.members| ==> a.members[i].name != ""
    ensures ShapeAccepts(a)
    ensures 2 * UnpackAll(dst, DefaultLimits(sourceTarballMaxMB), a).0.written <= 5 * sourceTarballMaxMB * 1024 * 1024
  {
    var lim := DefaultLimits(sourceTarballMaxMB);
    UnpackedPassesShapeIff(dst, lim, a);
    CapsHold(dst, lim, a, |a.members|);
  }

  // ---------------------------------------------------------------------------------------
  // The extraction itself
  // ---------------------------------------------------------------------------------------

  /** `escapesArchiveRoot` as it is written: the leading slash, then each component in turn. */
  method HasEscapingComponent(p: string) returns (escapes: bool)
    ensures escapes <==> EscapesArchiveRoot(p)
  {
    if p == "" {
      return false;
    }
    if HasPrefix(p, "/") {
      return true;
    }
    var parts := Split(p);
    for i := 0 to |parts|
      invariant ".." !in parts[..i]
    {
      if parts[i] == ".." {
        return true;
      }
    }
    assert parts[..|parts|] == parts;
    return false;
  }

  class Extractor {
    const dst: Path
    const lim: Limits
    var entries: nat
    var total: nat
    var firstDir: string
    var firstSet: bool
    var tree: Tree
    var written: nat

    constructor (dst: Path, lim: Limits)
      ensures this.dst == dst && this.lim == lim && Contents() == Fresh(dst)
    {
      this.dst, this.lim := dst, lim;
      entries, total, firstDir, firstSet, tree, written := 0, 0, "", false, map[dst := Dir], 0;
    }

    function Contents(): Progress
      reads this
    {
      Progress(entries, total, if firstSet then Some(firstDir) else None, tree, written)
    }

    method MakeDirs(p: Path, fault: Option<Fault>) returns (made: bool)
      modifies this`tree
      ensures (tree, made) == MadeDirs(dst, old(tree), p, fault)
    {
      var (after, all) := MadeDirs(dst, tree, p, fault);
      tree, made := after, all;
    }

    /** The file arm of the loop body. */
    method CopyFile(target: Path, m: Member, fault: Option<Fault>) returns (problem: Option<Problem>)
      modifies this`total, this`tree, this`written
      ensures (Contents(), problem) == Copy(dst, lim, old(Contents()), target, m, fault)
    {
      if m.size > lim.maxFileBytes {
        return Some(EntryTooLarge);
      }
      var made := MakeDirs(Parent(target), fault);
      if !made {
        return Some(DiskFailure);
      }
      if fault == Some(CannotCreate) || IsDir(dst, tree, target) {
        return Some(DiskFailure);
      }
      var body := Copied(lim, m, fault);
      tree := tree[target := File(body)];
      written := written + |body|;
      if !m.intact || (fault.Some? && fault.value.CannotWrite?) {
        return Some(BadTar);
      }
      total := total + |body|;
      if total > lim.maxTotalBytes {
        return Some(SourceTooLarge);
      }
      return None;
    }

    /** The loop body from where the archive root is known. */
    method PlaceMember(m: Member, fault: Option<Fault>) returns (problem: Option<Problem>)
      requires firstSet
      modifies this`entries, this`total, this`tree, this`written
      ensures (Contents(), problem) == Place(dst, lim, old(Contents()), firstDir, m, fault)
    {
      var name := m.name;
      if firstDir != "" && HasPrefix(name, firstDir + "/") {
        name := name[|firstDir| + 1..];
      }
      assert name == Strip(firstDir, m.name);
      if name == "" {
        return None;
      }
      var target := Join(dst, name);
      if !PathStaysUnder(target, dst) {
        return Some(PathEscapeAfterJoin);
      }
      if m.kind.Directory? {
        var made := MakeDirs(target, fault);
        return if made then None else Some(DiskFailure);
      }
      problem := CopyFile(target, m, fault);
    }

    /** The loop body, on one member. */
    method Next(m: Member, fault: Option<Fault>) returns (problem: Option<Problem>)
      requires firstSet ==> '/' !in firstDir
      modifies this
      ensures firstSet ==> '/' !in firstDir
      ensures (Contents(), problem) == Unpack(dst, lim, old(Contents()), m, fault)
    {
      if m.name == "" {
        return None;
      }
      var escapes := HasEscapingComponent(m.name);
      if escapes {
        return Some(EscapingName);
      }
      if !m.kind.Regular? && !m.kind.Directory? {
        return Some(TypeNotAllowed);
      }
      entries := entries + 1;
      if entries > lim.maxEntries {
        return Some(TooManyFiles);
      }
      if !firstSet {
        firstDir, firstSet := LeadingDir(m.name), true;
      }
      problem := PlaceMember(m, fault);
    }
  }

  lemma {:induction false} StopsAtProblem(dst: Path, lim: Limits, a: Archive, n: nat)
    requires n <= |a.members| && UnpackFirst(dst, lim, a, n).1.Some?
    ensures UnpackAll(dst, lim, a) == UnpackFirst(dst, lim, a, n)
    decreases |a.members| - n
  {
    if n < |a.members| {
      StopsAtProblem(dst, lim, a, n + 1);
    }
  }

  /** The loop over the tar stream: stop at the first problem, or at the end of the stream. */
  method ExtractTarGzInto(dst: Path, lim: Limits, a: Archive) returns (x: Extractor, problem: Option<Problem>)
    ensures fresh(x) && (x.Contents(), problem) == UnpackAll(dst, lim, a)
  {
    x := new Extractor(dst, lim);
    for i := 0 to |a.members|
      invariant fresh(x) && x.dst == dst && x.lim == lim
      invariant UnpackFirst(dst, lim, a, i) == (x.Contents(), None) && (x.firstSet ==> '/' !in x.firstDir)
    {
      problem := x.Next(a.members[i], FaultAt(a, i));
      if problem.Some? {
        StopsAtProblem(dst, lim, a, i + 1);
        return;
      }
    }
    return x, if a.broken then Some(BadTar) else None;
  }

  /** `os.RemoveAll`: the directory and what is below it, and nothing else. */
  function RemoveAll(tree: Tree, dir: Path): Tree { tree - set k | k in tree && Above(dir, k) }

  /** A failed extraction leaves nothing behind anywhere; a successful one leaves exactly its tree, all inside. */
  method ExtractTarGzToDir(dst: Path, lim: Limits, a: Archive) returns (problem: Option<Problem>, left: Tree)
    requires IsClean(dst)
    ensures problem == UnpackAll(dst, lim, a).1 && problem != Some(PathEscapeAfterJoin)
    ensures left == if problem.Some? then map[] else UnpackAll(dst, lim, a).0.tree
    ensures forall k :: k in left ==> Inside(k, dst)
  {
    var x;
    x, problem := ExtractTarGzInto(dst, lim, a);
    left := x.tree;
    JoinCheckUnreachable(dst, lim, a, |a.members|);
    UnpackFirstContained(dst, lim, a, |a.members|);
    if problem.Some? {
      left := RemoveAll(left, dst);
      assert left == map[];
    }
    forall k | k in left ensures Inside(k, dst) {
      EverythingInside(dst, lim, a, |a.members|, k);
    }
  }
}
