/** Evidence output confined to `.goffy-validation`: the path check, the directory creation and
    the descriptor walk that refuses symbolic links. */
module NoFollowWriter {
  import opened Options

  /** One part of a normalised path; `..` is possible. */
  type Name = s: string | s != "" && s != "." && '/' !in s witness "file"
  type Path = seq<Name>

  const UP: Name := ".."
  const VALIDATION: Name := ".goffy-validation"

  datatype Node = Directory | File(text: string) | Link
  type Tree = map<Path, Node>

  predicate IsDirectory(tree: Tree, p: Path) { p in tree && tree[p].Directory? }

  predicate IsLink(tree: Tree, p: Path) { p in tree && tree[p].Link? }

  function Parent(p: Path): Path
    requires p != []
  {
    p[..|p| - 1]
  }

  /** Entries live in directories. */
  predicate WellFormed(tree: Tree) { forall p <- tree :: p != [] ==> IsDirectory(tree, Parent(p)) }

  lemma {:induction false} AncestorsAreDirectories(tree: Tree, p: Path, i: nat)
    requires WellFormed(tree) && p in tree && i < |p|
    ensures IsDirectory(tree, p[..i])
    decreases |p|
  {
    assert IsDirectory(tree, Parent(p));
    if i < |p| - 1 {
      AncestorsAreDirectories(tree, Parent(p), i);
      assert Parent(p)[..i] == p[..i];
    }
  }

  // --------------------------------------------------------- the path check

  datatype PathArgument = Absolute(parts: Path) | Relative(parts: Path)

  function Candidate(root: Path, path: PathArgument): Path {
    if path.Absolute? then path.parts else root + path.parts
  }

  function Base(root: Path): Path { root + [VALIDATION] }

  predicate OutputPathAllowed(tree: Tree, root: Path, path: PathArgument) {
    var candidate := Candidate(root, path);
    && Base(root) <= candidate
    && UP !in candidate[|Base(root)|..]
    && !IsLink(tree, Base(root))
    && !IsLink(tree, candidate)
    && forall i :: 0 <= i < |candidate| ==> !IsLink(tree, candidate[..i])
  }

  /** The parts below the validation directory, or nothing when the path is refused. */
  function ConfinedOutputPath(tree: Tree, root: Path, path: PathArgument): (parts: Option<Path>)
    ensures parts.Some? ==>
      && parts.value != [] && UP !in parts.value
      && Candidate(root, path) == Base(root) + parts.value
      && NoLinkOnTheWay(tree, Base(root) + parts.value)
    ensures parts.None? <==> !OutputPathAllowed(tree, root, path) || Candidate(root, path) == Base(root)
  {
    var candidate := Candidate(root, path);
    if OutputPathAllowed(tree, root, path) && candidate[|Base(root)|..] != [] then
      assert Base(root) + candidate[|Base(root)|..] == candidate == candidate[..|candidate|];
      Some(candidate[|Base(root)|..])
    else None
  }

  /** No entry at or above `p` is a link. */
  predicate LinkFree(tree: Tree, p: Path) { forall q <- tree :: q <= p ==> !tree[q].Link? }

  lemma LinkFreeIff(tree: Tree, base: Path, p: Path)
    requires base <= p
    ensures LinkFree(tree, p) <==>
      !IsLink(tree, base) && !IsLink(tree, p) && forall i :: 0 <= i < |p| ==> !IsLink(tree, p[..i])
  {
    assert forall q: Path :: q <= p ==> q == p[..|q|];
    assert p[..|p|] == p && p[..|base|] == base;
    assert forall i :: 0 <= i < |p| ==> p[..i] <= p;
  }

  /** A path is accepted exactly if, given absolutely or from the root, it lies below
      `.goffy-validation` by parts without `..`, with no link at it or above it. */
  lemma AcceptedIff(tree: Tree, root: Path, path: PathArgument, parts: Path)
    ensures ConfinedOutputPath(tree, root, path) == Some(parts) <==>
      && (if path.Absolute? then path.parts else root + path.parts) == root + [".goffy-validation"] + parts
      && parts != [] && ".." !in parts && LinkFree(tree, root + [".goffy-validation"] + parts)
  {
    hide LinkFree, IsLink;
    var whole := root + [".goffy-validation"] + parts;
    assert Base(root) <= whole && whole[|Base(root)|..] == parts;
    LinkFreeIff(tree, Base(root), whole);
  }

  predicate NoLinkOnTheWay(tree: Tree, p: Path) { forall i :: 0 <= i <= |p| ==> !IsLink(tree, p[..i]) }

  // ------------------------------------------------------- what a walk needs

  /** `base` and each directory below it on the way through `dirs` is a real directory. */
  predicate Walkable(tree: Tree, base: Path, dirs: Path) {
    forall i :: 0 <= i <= |dirs| ==> IsDirectory(tree, base + dirs[..i])
  }

  /** Every directory of the walk is there and the last name can be opened for writing. */
  predicate Writable(tree: Tree, base: Path, parts: Path) {
    && parts != [] && Walkable(tree, base, Parent(parts))
    && !IsDirectory(tree, base + parts) && !IsLink(tree, base + parts)
  }

  lemma WalkReachesEnd(tree: Tree, base: Path, dirs: Path)
    requires Walkable(tree, base, dirs)
    ensures IsDirectory(tree, base + dirs)
  {
    assert dirs[..|dirs|] == dirs;
  }

  /** One file changed: it holds a first part of the text. */
  predicate FirstPartWritten(before: Tree, after: Tree, target: Path, text: string) {
    exists n :: 0 <= n <= |text| && after == before[target := File(text[..n])]
  }

  /** No existing entry blocks the creation of `p` as a directory. */
  predicate Creatable(tree: Tree, p: Path) {
    forall i :: 0 <= i <= |p| && p[..i] in tree ==> tree[p[..i]].Directory?
  }

  /** `after` is `before` with some missing directories on the way to `path`. */
  predicate OnlyAdded(before: Tree, after: Tree, path: Path) {
    && (forall p <- before :: p in after && after[p] == before[p])
    && (forall p <- after :: p in before || (after[p].Directory? && p <= path))
  }

  /** The target is as before, or a file with a first part of the text. */
  predicate KeepsOrHolds(before: Tree, after: Tree, target: Path, text: string) {
    || (target !in before && target !in after)
    || (target in after && target in before && after[target] == before[target])
    || (target in after && after[target].File? && after[target].text <= text)
  }

  /** Every entry but `target` is kept, and what is new beside it are directories above it. */
  predicate OnlyTouches(before: Tree, after: Tree, target: Path) {
    && (forall p <- before :: p != target ==> p in after && after[p] == before[p])
    && (forall p <- after :: p != target ==> p in before || (after[p].Directory? && p <= target))
  }

  lemma ExistingIsCreatable(tree: Tree, p: Path)
    requires WellFormed(tree) && p in tree
    ensures Creatable(tree, p) <==> tree[p].Directory?
  {
    forall i: nat | i < |p| ensures IsDirectory(tree, p[..i]) {
      AncestorsAreDirectories(tree, p, i);
    }
    assert p[..|p|] == p;
  }

  lemma MissingIsCreatable(tree: Tree, p: Path)
    requires p != [] && p !in tree
    ensures Creatable(tree, p) <==> Creatable(tree, Parent(p))
  {
    assert p[..|p|] == p;
    assert forall i :: 0 <= i < |p| ==> Parent(p)[..i] == p[..i];
  }

  lemma NoLinkOnPrefix(tree: Tree, p: Path, q: Path)
    requires NoLinkOnTheWay(tree, p) && q <= p
    ensures NoLinkOnTheWay(tree, q)
  {
    assert forall i :: 0 <= i <= |q| ==> q[..i] == p[..i];
  }

  lemma StillNoLink(before: Tree, after: Tree, made: Path, p: Path)
    requires OnlyAdded(before, after, made) && NoLinkOnTheWay(before, p)
    ensures NoLinkOnTheWay(after, p)
  {
  }

  lemma OneFileTouched(before: Tree, made: Tree, after: Tree, target: Path, text: string)
    requires target != [] && OnlyAdded(before, made, Parent(target))
    requires after == made || FirstPartWritten(made, after, target, text)
    ensures OnlyTouches(before, after, target) && KeepsOrHolds(before, after, target, text)
    ensures IsDirectory(made, target) <==> IsDirectory(before, target)
  {
    forall p | p in after && p != target ensures p in before || (after[p].Directory? && p <= target) {
      if p !in before {
        assert p <= Parent(target) <= target;
      }
    }
  }

  lemma NothingTouched(tree: Tree, target: Path, text: string)
    ensures OnlyTouches(tree, tree, target) && KeepsOrHolds(tree, tree, target, text)
  {
  }

  lemma WalkableOnceMade(tree: Tree, base: Path, parts: Path)
    requires WellFormed(tree) && parts != [] && IsDirectory(tree, Parent(base + parts))
    ensures Walkable(tree, base, Parent(parts))
  {
    hide WellFormed;
    var last := Parent(base + parts);
    assert last == base + Parent(parts);
    forall i | 0 <= i <= |Parent(parts)| ensures IsDirectory(tree, base + Parent(parts)[..i]) {
      if i < |Parent(parts)| {
        assert base + Parent(parts)[..i] == last[..|base| + i];
        AncestorsAreDirectories(tree, last, |base| + i);
      } else {
        assert Parent(parts)[..i] == Parent(parts);
      }
    }
  }

  // ------------------------------------------------------------ the process

  /** `serial` numbers the opens of the whole run: a descriptor number can be handed out again,
      a serial cannot. */
  datatype Handle = Handle(serial: nat, path: Path)

  datatype Outcome = Rejected | Failed | Written

  lemma {:induction false} SomeNumberIsFree(taken: set<nat>)
    ensures exists n: nat :: n !in taken
  {
    var top: nat := 0;
    var seen: set<nat> := {};
    while seen != taken
      invariant seen <= taken
      invariant forall n <- seen :: n < top
      decreases |taken - seen|
    {
      var n :| n in taken - seen;
      ghost var before := taken - seen;
      seen := seen + {n};
      assert taken - seen == before - {n};
      top := if n < top then top else n + 1;
    }
    assert top !in taken;
  }

  /** Between the counts of closes `before` and `after`, the opens `first` up to `last` were
      closed once each, and no other. */
  ghost predicate ClosedOnce(before: multiset<nat>, after: multiset<nat>, first: nat, last: nat) {
    forall s: nat :: after[s] == before[s] + (if first <= s < last then 1 else 0)
  }

  lemma NoneClosed(count: multiset<nat>, first: nat)
    ensures ClosedOnce(count, count, first, first)
  {
  }

  lemma OneMoreClosed(before: multiset<nat>, walk: multiset<nat>, first: nat, dir: nat)
    requires first <= dir && ClosedOnce(before, walk, first, dir)
    ensures ClosedOnce(before, walk + multiset{dir}, first, dir + 1)
  {
  }

  lemma ClosedInTheEnd(before: multiset<nat>, walk: multiset<nat>, after: multiset<nat>, first: nat, dir: nat,
                       last: nat)
    requires first <= dir < last
    requires ClosedOnce(before, walk, first, dir) && ClosedOnce(walk, after, dir + 1, last)
    ensures ClosedOnce(before, after + multiset{dir}, first, last)
  {
  }

  /** Descriptor table and files. Any open, write or mkdir may be refused by the system;
      `refused` remembers that one was. `closed` counts the closes of each open. */
  class Process {
    var fds: map<nat, Handle>
    var tree: Tree
    var opens: nat
    ghost var closed: multiset<nat>
    ghost var refused: bool

    /** Since the table and the count of closes were `table` and `before`, every descriptor
        opened from serial `first` on was closed exactly once, and no other was. */
    ghost predicate AllClosed(table: map<nat, Handle>, before: multiset<nat>, first: nat)
      reads this
    {
      && fds == table
      && first <= opens && ClosedOnce(before, closed, first, opens)
    }

    /** The same with the descriptor `fd` on `path`, the last one opened, still open. */
    ghost predicate OnlyOpen(fd: nat, path: Path, table: map<nat, Handle>, before: multiset<nat>, first: nat)
      reads this
    {
      && first < opens && fd !in table
      && fds == table[fd := Handle(opens - 1, path)]
      && ClosedOnce(before, closed, first, opens - 1)
    }

    /** `os.open(path, O_RDONLY | O_DIRECTORY | O_NOFOLLOW)`. */
    method OpenDirectory(path: Path) returns (fd: Option<nat>)
      modifies this`fds, this`opens, this`refused
      ensures old(refused) ==> refused
      ensures fd.None? ==> fds == old(fds) && opens == old(opens)
      ensures fd.None? && !refused ==> !IsDirectory(tree, path)
      ensures fd.Some? ==>
        && IsDirectory(tree, path) && fd.value !in old(fds)
        && opens == old(opens) + 1 && fds == old(fds)[fd.value := Handle(old(opens), path)]
    {
      var refuse: bool := *;
      if refuse {
        refused := true;
        return None;
      }
      if !IsDirectory(tree, path) {
        return None;
      }
      SomeNumberIsFree(fds.Keys);
      var n: nat :| n !in fds;
      fds := fds[n := Handle(opens, path)];
      opens := opens + 1;
      return Some(n);
    }

    /** `os.open(name, O_WRONLY | O_CREAT | O_TRUNC | O_NOFOLLOW, dir_fd=dir)`. */
    method OpenFileAt(dir: nat, name: Name) returns (fd: Option<nat>)
      requires dir in fds && name != UP && IsDirectory(tree, fds[dir].path)
      modifies this`fds, this`opens, this`tree, this`refused
      ensures old(refused) ==> refused
      ensures fd.None? ==> fds == old(fds) && opens == old(opens) && tree == old(tree)
      ensures var target := old(fds[dir].path) + [name];
        && (fd.None? && !refused ==> IsDirectory(old(tree), target) || IsLink(old(tree), target))
        && (fd.Some? ==>
          && !IsDirectory(old(tree), target) && !IsLink(old(tree), target) && fd.value !in old(fds)
          && tree == old(tree)[target := File("")]
          && opens == old(opens) + 1 && fds == old(fds)[fd.value := Handle(old(opens), target)])
    {
      var target := fds[dir].path + [name];
      var refuse: bool := *;
      if refuse {
        refused := true;
        return None;
      }
      if IsDirectory(tree, target) || IsLink(tree, target) {
        return None;
      }
      SomeNumberIsFree(fds.Keys);
      var n: nat :| n !in fds;
      fds := fds[n := Handle(opens, target)];
      opens := opens + 1;
      tree := tree[target := File("")];
      return Some(n);
    }

    /** `os.write`: all of the text, or a refusal that may leave a first part of it. */
    method Write(fd: nat, text: string) returns (ok: bool)
      requires fd in fds && fds[fd].path in tree && tree[fds[fd].path] == File("")
      modifies this`tree, this`refused
      ensures old(refused) ==> refused
      ensures !ok ==> refused
      ensures ok ==> tree == old(tree)[fds[fd].path := File(text)]
      ensures exists n :: 0 <= n <= |text| && tree == old(tree)[fds[fd].path := File(text[..n])]
    {
      var refuse: bool := *;
      var n := |text|;
      if refuse {
        refused := true;
        n :| 0 <= n <= |text|;
      }
      tree := tree[fds[fd].path := File(text[..n])];
      assert text[..|text|] == text;
      return !refuse;
    }

    method Close(fd: nat)
      requires fd in fds
      modifies this`fds, this`closed
      ensures fds == old(fds) - {fd}
      ensures closed == old(closed) + multiset{old(fds[fd].serial)}
    {
      closed := closed + multiset{fds[fd].serial};
      fds := fds - {fd};
    }

    /** The walk of `write_text_no_follow` over all parts but the last. */
    method OpenLastDirectory(base: Path, dirs: Path) returns (dir: Option<nat>)
      requires UP !in dirs
      modifies this`fds, this`opens, this`closed, this`refused
      ensures old(refused) ==> refused
      ensures dir.None? ==> AllClosed(old(fds), old(closed), old(opens))
      ensures dir.None? && !refused ==> !Walkable(tree, base, dirs)
      ensures dir.Some? ==>
        Walkable(tree, base, dirs) && OnlyOpen(dir.value, base + dirs, old(fds), old(closed), old(opens))
    {
      hide ClosedOnce;
      NoneClosed(closed, opens);
      dir := OpenDirectory(base);
      assert base + dirs[..0] == base;
      if dir.None? {
        return;
      }
      var k := 0;
      while k < |dirs|
        invariant 0 <= k <= |dirs| && (old(refused) ==> refused)
        invariant forall i :: 0 <= i <= k ==> IsDirectory(tree, base + dirs[..i])
        invariant dir.Some? && OnlyOpen(dir.value, base + dirs[..k], old(fds), old(closed), old(opens))
      {
        assert base + dirs[..k] + [dirs[k]] == base + dirs[..k + 1];
        ghost var serial, walk := fds[dir.value].serial, closed;
        var next := OpenDirectory(fds[dir.value].path + [dirs[k]]);
        OneMoreClosed(old(closed), walk, old(opens), serial);
        Close(dir.value);
        if next.None? {
          assert fds == old(fds);
          return None;
        }
        assert fds == old(fds)[next.value := Handle(opens - 1, base + dirs[..k + 1])];
        dir := next;
        k := k + 1;
      }
      assert dirs[..k] == dirs;
    }

    /** The file part of `write_text_no_follow`: open, write, close. */
    method WriteFileAt(dir: nat, name: Name, text: string) returns (ok: bool)
      requires dir in fds && name != UP && IsDirectory(tree, fds[dir].path)
      modifies this
      ensures old(refused) ==> refused
      ensures AllClosed(old(fds), old(closed), old(opens))
      ensures var target := old(fds[dir].path) + [name];
        && (ok || tree != old(tree) ==> !IsDirectory(old(tree), target) && !IsLink(old(tree), target))
        && (ok ==> tree == old(tree)[target := File(text)])
        && (tree != old(tree) ==> FirstPartWritten(old(tree), tree, target, text))
        && (!ok && !refused ==> IsDirectory(old(tree), target) || IsLink(old(tree), target))
    {
      var target := fds[dir].path + [name];
      var file := OpenFileAt(dir, name);
      if file.None? {
        return false;
      }
      ok := Write(file.value, text);
      assert FirstPartWritten(old(tree), tree, target, text) by {
        var n :| 0 <= n <= |text| && tree == old(tree)[target := File("")][target := File(text[..n])];
        assert tree == old(tree)[target := File(text[..n])];
      }
      Close(file.value);
      assert fds == old(fds);
    }

    /** `write_text_no_follow`. */
    method WriteTextNoFollow(base: Path, parts: Path, text: string) returns (outcome: Outcome)
      requires UP !in parts
      requires forall i :: 0 <= i < |base| ==> !IsLink(tree, base[..i])
      modifies this
      ensures old(refused) ==> refused
      ensures AllClosed(old(fds), old(closed), old(opens))
      ensures outcome != Rejected
      ensures outcome == Written ==> tree == old(tree)[base + parts := File(text)]
      ensures outcome == Written || tree != old(tree) ==> Writable(old(tree), base, parts)
      ensures tree != old(tree) ==> FirstPartWritten(old(tree), tree, base + parts, text)
      ensures !refused ==> (outcome == Written <==> Writable(old(tree), base, parts))
    {
      hide Walkable, FirstPartWritten, IsDirectory, IsLink, ClosedOnce;
      var dirs := if parts == [] then [] else Parent(parts);
      var dir := OpenLastDirectory(base, dirs);
      if dir.None? {
        return Failed;
      }
      ghost var walk, serial := closed, opens - 1;
      var ok := false;
      if parts != [] {
        assert parts == dirs + [parts[|parts| - 1]];
        assert base + dirs + [parts[|parts| - 1]] == base + parts;
        WalkReachesEnd(tree, base, dirs);
        ok := WriteFileAt(dir.value, parts[|parts| - 1], text);
      } else {
        NoneClosed(walk, opens);
      }
      ClosedInTheEnd(old(closed), walk, closed, old(opens), serial, opens);
      Close(dir.value);
      assert fds == old(fds);
      return if ok then Written else Failed;
    }

    /** `mkdir(parents=True, exist_ok=True)` on a path without links. */
    method MakeDirectories(path: Path) returns (ok: bool)
      requires WellFormed(tree) && IsDirectory(tree, []) && NoLinkOnTheWay(tree, path)
      modifies this`tree, this`refused
      ensures WellFormed(tree) && (old(refused) ==> refused)
      ensures OnlyAdded(old(tree), tree, path)
      ensures ok ==> IsDirectory(tree, path) && Creatable(old(tree), path)
      ensures !refused ==> (ok <==> Creatable(old(tree), path))
      decreases |path|
    {
      assert path[..|path|] == path;
      if path in tree {
        ExistingIsCreatable(tree, path);
        return tree[path].Directory?;
      }
      MissingIsCreatable(tree, path);
      var refuse: bool := *;
      if refuse {
        refused := true;
        return false;
      }
      if !IsDirectory(tree, Parent(path)) {
        assert NoLinkOnTheWay(tree, Parent(path)) by {
          assert forall i :: 0 <= i <= |path| - 1 ==> Parent(path)[..i] == path[..i];
        }
        ok := MakeDirectories(Parent(path));
        if !ok {
          return;
        }
      } else {
        ExistingIsCreatable(tree, Parent(path));
      }
      refuse := *;
      if refuse {
        refused := true;
        return false;
      }
      tree := tree[path := Directory];
      return true;
    }

    /** `write_output`. */
    method WriteOutput(root: Path, path: PathArgument, text: string) returns (outcome: Outcome)
      requires WellFormed(tree) && IsDirectory(tree, []) && UP !in root
      modifies this
      ensures AllClosed(old(fds), old(closed), old(opens))
      ensures outcome == Rejected <==> ConfinedOutputPath(old(tree), root, path).None?
      ensures outcome == Rejected ==> tree == old(tree)
      ensures OnlyTouches(old(tree), tree, Candidate(root, path))
      ensures KeepsOrHolds(old(tree), tree, Candidate(root, path), text)
      ensures outcome == Written ==>
        && NoLinkOnTheWay(old(tree), Candidate(root, path))
        && Candidate(root, path) in tree && tree[Candidate(root, path)] == File(text)
      ensures old(refused) ==> refused
      ensures !refused && outcome != Rejected ==>
        (outcome == Written <==>
          Creatable(old(tree), Parent(Candidate(root, path))) && !IsDirectory(old(tree), Candidate(root, path)))
    {
      hide Creatable, Walkable, NoLinkOnTheWay, WellFormed, FirstPartWritten, ClosedOnce, OnlyAdded, OnlyTouches,
           KeepsOrHolds;
      NoneClosed(closed, opens);
      var parts := ConfinedOutputPath(tree, root, path);
      if parts.None? {
        NothingTouched(tree, Candidate(root, path), text);
        return Rejected;
      }
      var target := Base(root) + parts.value;
      assert Parent(target) <= target && Base(root) <= target;
      NoLinkOnPrefix(tree, target, Parent(target));
      var ok := MakeDirectories(Parent(target));
      if !ok {
        OneFileTouched(old(tree), tree, tree, target, text);
        return Failed;
      }
      StillNoLink(old(tree), tree, Parent(target), target);
      NoLinkOnPrefix(tree, target, Base(root));
      WalkableOnceMade(tree, Base(root), parts.value);
      ghost var made := tree;
      outcome := WriteTextNoFollow(Base(root), parts.value, text);
      OneFileTouched(old(tree), made, tree, target, text);
    }
  }
}
