/** `execute_aosp_product_import`: copy each planned file into an AOSP checkout
    unless it is there already, and refuse to overwrite a different file.
    Any operation may raise; `Fault` says which one does, and what it leaves. */
module AospImport {
  import opened Bytes

  type Path = seq<string>
  datatype Node = Directory | File(content: seq<Byte>)
  type Tree = map<Path, Node>

  datatype PlannedFile = PlannedFile(source: Path, absolute: bool, destination: Path)

  datatype FileStatus = Copied | Unchanged

  datatype ImportError =
    | BlockersExist | RootMissing | UnsafeDestination | SourceUnreadable
    | DestinationUnreadable | RefusesToOverwrite | MakeDirectoriesFailed | WriteFailed

  /** `MakeDirs(n)` stops after the first `n` ancestors exist; `Write(n)` after `n` bytes. */
  datatype Fault = NoFault | ReadSource | ReadDestination | MakeDirs(made: nat) | Open | Write(written: nat)

  /** The resolved root and `Path.resolve`, which does not change during an import. */
  datatype Checkout = Checkout(root: Path, resolve: Path -> Path)

  datatype Destination = Unsafe | Safe(path: Path)

  function SafeDestination(checkout: Checkout, f: PlannedFile): (d: Destination)
    ensures d.Safe? ==> checkout.root <= d.path && d.path == checkout.resolve(checkout.root + f.destination)
    ensures d.Unsafe? <==>
              || f.absolute || ".." in f.destination
              || !(checkout.root <= checkout.resolve(checkout.root + f.destination))
  {
    if f.absolute || ".." in f.destination then Unsafe
    else
      var path := checkout.resolve(checkout.root + f.destination);
      if checkout.root <= path then Safe(path) else Unsafe
  }

  // ------------------------------------------------------------- one file

  /** No ancestor of `path` is a file. */
  predicate ParentsFree(tree: Tree, path: Path) {
    forall q <- tree :: |q| < |path| && q <= path ==> tree[q].Directory?
  }

  /** The ancestors of `path` with fewer than `n` components. */
  function Ancestors(path: Path, n: nat): (s: set<Path>)
    requires n <= |path|
    ensures forall q :: q in s <==> |q| < n && q <= path
  {
    assert forall q: Path :: q <= path ==> q == path[..|q|];
    set i | 0 <= i < n :: path[..i]
  }

  /** `mkdir(parents=True, exist_ok=True)` up to the ancestor of length `n - 1`. */
  function WithParents(tree: Tree, path: Path, n: nat): (made: Tree)
    requires n <= |path|
    ensures forall q :: q in made <==> q in tree || (|q| < n && q <= path)
    ensures forall q :: q in made ==> made[q] == if q in tree then tree[q] else Directory
  {
    (map q | q in Ancestors(path, n) :: Directory) + tree
  }

  datatype Step = Done(tree: Tree, status: FileStatus) | Raised(tree: Tree, error: ImportError)

  function ImportOne(checkout: Checkout, tree: Tree, f: PlannedFile, fault: Fault): Step {
    var destination := SafeDestination(checkout, f);
    if destination.Unsafe? then Raised(tree, UnsafeDestination)
    else if fault.ReadSource? || f.source !in tree || tree[f.source].Directory? then Raised(tree, SourceUnreadable)
    else ImportBytes(tree, tree[f.source].content, destination.path, fault)
  }

  function ImportBytes(tree: Tree, bytes: seq<Byte>, path: Path, fault: Fault): Step {
    if path in tree then
      if tree[path].Directory? || fault.ReadDestination? then Raised(tree, DestinationUnreadable)
      else if tree[path].content == bytes then Done(tree, Unchanged)
      else Raised(tree, RefusesToOverwrite)
    else if !ParentsFree(tree, path) then Raised(tree, MakeDirectoriesFailed)
    else
      var made := WithParents(tree, path, |path|);
      match fault
      case MakeDirs(n) => Raised(WithParents(tree, path, if n < |path| then n else |path|), MakeDirectoriesFailed)
      case Open => Raised(made, WriteFailed)
      case Write(n) => Raised(made[path := File(bytes[..if n < |bytes| then n else |bytes|])], WriteFailed)
      case _ => Done(made[path := File(bytes)], Copied)
  }

  /** What becomes of one file when nothing fails by itself: a path above its destination that
      is a file, a destination that differs, or a source that is no file stops it. */
  lemma OneFile(checkout: Checkout, tree: Tree, f: PlannedFile, path: Path, content: seq<Byte>)
    requires SafeDestination(checkout, f) == Safe(path) && f.source in tree && tree[f.source] == File(content)
    ensures var step := ImportOne(checkout, tree, f, NoFault);
      && (step == Done(tree, Unchanged) <==> path in tree && tree[path] == File(content))
      && (step.Done? && step.status == Copied <==>
            path !in tree && forall i :: 0 <= i < |path| && path[..i] in tree ==> tree[path[..i]] == Directory)
      && (step == Raised(tree, RefusesToOverwrite) <==> path in tree && tree[path].File? && tree[path] != File(content))
      && (step == Raised(tree, DestinationUnreadable) <==> path in tree && tree[path] == Directory)
      && (step == Raised(tree, MakeDirectoriesFailed) <==>
            path !in tree && exists i :: 0 <= i < |path| && path[..i] in tree && tree[path[..i]].File?)
      && (step.Done? && step.status == Copied ==>
            && step.tree[path] == File(content)
            && (forall i :: 0 <= i < |path| ==> path[..i] in step.tree && step.tree[path[..i]] == Directory)
            && forall p :: p in step.tree && p !in tree ==> p <= path)
  {
    assert ParentsFree(tree, path) <==>
           forall i :: 0 <= i < |path| && path[..i] in tree ==> tree[path[..i]].Directory? by {
      assert forall q: Path :: q <= path ==> q == path[..|q|];
    }
    assert forall i :: 0 <= i < |path| ==> |path[..i]| == i && path[..i] <= path && path[..i] != path;
  }

  /** Without a safe destination or a readable source nothing is touched. */
  lemma UnreadableFile(checkout: Checkout, tree: Tree, f: PlannedFile, fault: Fault)
    ensures SafeDestination(checkout, f).Unsafe? ==>
              ImportOne(checkout, tree, f, fault) == Raised(tree, UnsafeDestination)
    ensures SafeDestination(checkout, f).Safe? && (f.source !in tree || tree[f.source] == Directory) ==>
              ImportOne(checkout, tree, f, fault) == Raised(tree, SourceUnreadable)
  {
  }

  // ------------------------------------------------------------- whole run

  datatype Outcome =
    | Success(tree: Tree, statuses: seq<FileStatus>)
    | Failure(tree: Tree, statuses: seq<FileStatus>, error: ImportError)

  function After(status: FileStatus, rest: Outcome): Outcome {
    rest.(statuses := [status] + rest.statuses)
  }

  /** The import of `plan`; `statuses` are those of the files that got through. */
  function Import(checkout: Checkout, tree: Tree, plan: seq<PlannedFile>, faults: seq<Fault>): Outcome
    requires |faults| == |plan|
    decreases |plan|
  {
    if plan == [] then Success(tree, [])
    else match ImportOne(checkout, tree, plan[0], faults[0])
      case Raised(t, error) => Failure(t, [], error)
      case Done(t, status) => After(status, Import(checkout, t, plan[1..], faults[1..]))
  }

  function NoFaults(n: nat): (s: seq<Fault>)
    ensures |s| == n
  {
    if n == 0 then [] else [NoFault] + NoFaults(n - 1)
  }

  function AllUnchanged(n: nat): (s: seq<FileStatus>)
    ensures |s| == n
  {
    if n == 0 then [] else [Unchanged] + AllUnchanged(n - 1)
  }

  /** The checkout on disk; `Execute` is the loop of the importer. */
  class AospCheckout {
    var tree: Tree
    const checkout: Checkout

    constructor (checkout: Checkout, tree: Tree)
      ensures this.checkout == checkout && this.tree == tree
    {
      this.checkout := checkout;
      this.tree := tree;
    }

    method Execute(blocked: bool, plan: seq<PlannedFile>, faults: seq<Fault>) returns (outcome: Outcome)
      requires |faults| == |plan|
      modifies this
      ensures outcome.tree == tree
      ensures blocked ==> outcome == Failure(old(tree), [], BlockersExist)
      ensures !blocked && (checkout.root !in old(tree) || !old(tree)[checkout.root].Directory?) ==>
                outcome == Failure(old(tree), [], RootMissing)
      ensures !blocked && checkout.root in old(tree) && old(tree)[checkout.root].Directory? ==>
                outcome == Import(checkout, old(tree), plan, faults)
    {
      if blocked { return Failure(tree, [], BlockersExist); }
      if checkout.root !in tree || !tree[checkout.root].Directory? { return Failure(tree, [], RootMissing); }
      var executed: seq<FileStatus> := [];
      var i := 0;
      ghost var whole := Import(checkout, tree, plan, faults);
      while i < |plan|
        invariant 0 <= i <= |plan| && |executed| == i
        invariant whole == Resumed(executed, Import(checkout, tree, plan[i..], faults[i..]))
      {
        ghost var before, done := tree, executed;
        assert plan[i..][1..] == plan[i + 1..] && faults[i..][1..] == faults[i + 1..];
        var step := ImportOne(checkout, tree, plan[i], faults[i]);
        tree := step.tree;
        if step.Raised? { return Failure(tree, executed, step.error); }
        executed := executed + [step.status];
        ResumedAfter(done, step.status, Import(checkout, tree, plan[i + 1..], faults[i + 1..]));
        i := i + 1;
      }
      outcome := Success(tree, executed);
    }
  }

  ghost function Resumed(done: seq<FileStatus>, rest: Outcome): Outcome {
    rest.(statuses := done + rest.statuses)
  }

  lemma ResumedAfter(done: seq<FileStatus>, status: FileStatus, rest: Outcome)
    ensures Resumed(done, After(status, rest)) == Resumed(done + [status], rest)
  {
    assert done + ([status] + rest.statuses) == done + [status] + rest.statuses;
  }

  // ------------------------------------------------------------ properties

  /** Everything that was there is still there, unchanged. */
  ghost predicate Extends(before: Tree, after: Tree) {
    forall p :: p in before ==> p in after && after[p] == before[p]
  }

  /** What one import may add: its destination, and directories above it. */
  ghost predicate AddsOnly(before: Tree, after: Tree, path: Path) {
    forall p :: p in after && p !in before ==>
      p <= path && (p == path || after[p].Directory?)
  }

  lemma OneOnlyAdds(checkout: Checkout, tree: Tree, f: PlannedFile, fault: Fault)
    ensures var after := ImportOne(checkout, tree, f, fault).tree;
            && Extends(tree, after)
            && match SafeDestination(checkout, f)
               case Unsafe => after == tree
               case Safe(path) => AddsOnly(tree, after, path)
  {
  }

  ghost predicate AboveSomeDestination(checkout: Checkout, plan: seq<PlannedFile>, p: Path) {
    exists f <- plan :: SafeDestination(checkout, f).Safe? && p <= SafeDestination(checkout, f).path
  }

  ghost predicate SomeDestination(checkout: Checkout, plan: seq<PlannedFile>, p: Path) {
    exists f <- plan :: SafeDestination(checkout, f) == Safe(p)
  }

  /** Success or not, a run changes nothing that existed; new files appear only at
      planned destinations, which lie under the root, and new directories above them. */
  lemma {:induction false} ImportNeverOverwrites(
      checkout: Checkout, tree: Tree, plan: seq<PlannedFile>, faults: seq<Fault>)
    requires |faults| == |plan|
    ensures var after := Import(checkout, tree, plan, faults).tree;
            && Extends(tree, after)
            && forall p :: p in after && p !in tree ==>
                 && AboveSomeDestination(checkout, plan, p)
                 && (after[p].File? ==> SomeDestination(checkout, plan, p) && checkout.root <= p)
    decreases |plan|
  {
    if plan != [] {
      OneOnlyAdds(checkout, tree, plan[0], faults[0]);
      var step := ImportOne(checkout, tree, plan[0], faults[0]);
      assert plan[0] in plan;
      if step.Done? {
        ImportNeverOverwrites(checkout, step.tree, plan[1..], faults[1..]);
      }
    }
  }

  ghost predicate InPlace(checkout: Checkout, tree: Tree, f: PlannedFile) {
    var destination := SafeDestination(checkout, f);
    && destination.Safe? && destination.path in tree && f.source in tree
    && tree[f.source].File? && tree[destination.path] == tree[f.source]
  }

  lemma DoneIsInPlace(checkout: Checkout, tree: Tree, f: PlannedFile, fault: Fault)
    ensures var step := ImportOne(checkout, tree, f, fault); step.Done? ==> InPlace(checkout, step.tree, f)
  {
  }

  lemma InPlaceStays(checkout: Checkout, before: Tree, after: Tree, f: PlannedFile)
    requires InPlace(checkout, before, f) && Extends(before, after)
    ensures InPlace(checkout, after, f)
  {
  }

  /** The files that got through hold their source's bytes when the run ends, even
      if sources and destinations overlap; on success that is every file. */
  lemma {:induction false} ImportedFilesEqualSources(
      checkout: Checkout, tree: Tree, plan: seq<PlannedFile>, faults: seq<Fault>)
    requires |faults| == |plan|
    ensures var r := Import(checkout, tree, plan, faults);
            && |r.statuses| <= |plan| && (r.Success? ==> |r.statuses| == |plan|)
            && forall i | 0 <= i < |r.statuses| :: InPlace(checkout, r.tree, plan[i])
    decreases |plan|
  {
    if plan != [] {
      var step := ImportOne(checkout, tree, plan[0], faults[0]);
      if step.Done? {
        var rest := Import(checkout, step.tree, plan[1..], faults[1..]);
        ImportedFilesEqualSources(checkout, step.tree, plan[1..], faults[1..]);
        ImportNeverOverwrites(checkout, step.tree, plan[1..], faults[1..]);
        DoneIsInPlace(checkout, tree, plan[0], faults[0]);
        InPlaceStays(checkout, step.tree, rest.tree, plan[0]);
        var r := Import(checkout, tree, plan, faults);
        assert r.statuses == [step.status] + rest.statuses && r.tree == rest.tree;
        forall i | 0 <= i < |r.statuses| ensures InPlace(checkout, r.tree, plan[i]) {
          assert i > 0 ==> plan[i] == plan[1..][i - 1];
        }
      }
    }
  }

  lemma InPlaceStep(checkout: Checkout, tree: Tree, f: PlannedFile)
    requires InPlace(checkout, tree, f)
    ensures ImportOne(checkout, tree, f, NoFault) == Done(tree, Unchanged)
  {
  }

  /** Files already in place are passed over, leaving the tree as it is. */
  lemma {:induction false} InPlaceIsSkipped(checkout: Checkout, tree: Tree, plan: seq<PlannedFile>, n: nat)
    requires n <= |plan| && forall i | 0 <= i < n :: InPlace(checkout, tree, plan[i])
    ensures Import(checkout, tree, plan, NoFaults(|plan|)) ==
            Resumed(AllUnchanged(n), Import(checkout, tree, plan[n..], NoFaults(|plan| - n)))
    decreases n
  {
    hide ImportOne, InPlace;
    if n == 0 {
      assert plan[0..] == plan;
      NothingDone(Import(checkout, tree, plan, NoFaults(|plan|)));
    } else {
      assert InPlace(checkout, tree, plan[0]);
      InPlaceStep(checkout, tree, plan[0]);
      assert NoFaults(|plan|)[1..] == NoFaults(|plan| - 1);
      forall i | 0 <= i < n - 1 ensures InPlace(checkout, tree, plan[1..][i]) {
        assert plan[1..][i] == plan[i + 1];
      }
      InPlaceIsSkipped(checkout, tree, plan[1..], n - 1);
      assert plan[1..][n - 1..] == plan[n..];
      SkipOneMore(n, Import(checkout, tree, plan[n..], NoFaults(|plan| - n)));
    }
  }

  lemma NothingDone(rest: Outcome)
    ensures Resumed([], rest) == rest
  {
    assert [] + rest.statuses == rest.statuses;
  }

  lemma SkipOneMore(n: nat, rest: Outcome)
    requires n > 0
    ensures After(Unchanged, Resumed(AllUnchanged(n - 1), rest)) == Resumed(AllUnchanged(n), rest)
  {
    assert [Unchanged] + (AllUnchanged(n - 1) + rest.statuses) == AllUnchanged(n) + rest.statuses;
  }

  /** Importing twice: the second run reports only "unchanged" and changes nothing. */
  lemma SecondRunUnchanged(checkout: Checkout, tree: Tree, plan: seq<PlannedFile>, faults: seq<Fault>)
    requires |faults| == |plan|
    requires Import(checkout, tree, plan, faults).Success?
    ensures var after := Import(checkout, tree, plan, faults).tree;
            Import(checkout, after, plan, NoFaults(|plan|)) == Success(after, AllUnchanged(|plan|))
  {
    ImportedFilesEqualSources(checkout, tree, plan, faults);
    var after := Import(checkout, tree, plan, faults).tree;
    InPlaceIsSkipped(checkout, after, plan, |plan|);
    assert AllUnchanged(|plan|) + [] == AllUnchanged(|plan|);
  }

  // ------------------------------------------------------- failure and retry

  /** A write that stops part way leaves a file that differs from its source. */
  ghost predicate LeavesPartialFile(checkout: Checkout, tree: Tree, f: PlannedFile, fault: Fault) {
    && fault.Write? && ImportOne(checkout, tree, f, NoFault).Done?
    && ImportOne(checkout, tree, f, NoFault).status == Copied
    && fault.written < |tree[f.source].content|
  }

  lemma RemainingParents(tree: Tree, path: Path, n: nat)
    requires n <= |path| && path !in tree && ParentsFree(tree, path)
    ensures var t := WithParents(tree, path, n);
            path !in t && ParentsFree(t, path) && WithParents(t, path, |path|) == WithParents(tree, path, |path|)
  {
    hide WithParents;
  }

  /** A file that only a fault stopped goes through on retry, to the same tree,
      exactly when the fault was not a write that stopped part way. */
  lemma RetryOne(checkout: Checkout, tree: Tree, f: PlannedFile, fault: Fault)
    requires ImportOne(checkout, tree, f, fault).Raised?
    requires ImportOne(checkout, tree, f, NoFault).Done?
    ensures var left := ImportOne(checkout, tree, f, fault).tree;
            var retry := ImportOne(checkout, left, f, NoFault);
            && (retry.Done? <==> !LeavesPartialFile(checkout, tree, f, fault))
            && (retry.Done? ==> retry.tree == ImportOne(checkout, tree, f, NoFault).tree)
            && (retry.Raised? ==> retry == Raised(left, RefusesToOverwrite))
  {
    var path := SafeDestination(checkout, f).path;
    var bytes := tree[f.source].content;
    if path in tree {
      RetryExisting(tree, bytes, path, fault);
    } else if !fault.ReadSource? {
      CopiedIfMissing(tree, bytes, path);
      RetryBytes(tree, bytes, path, fault);
    }
    hide ImportBytes;
  }

  lemma RetryExisting(tree: Tree, bytes: seq<Byte>, path: Path, fault: Fault)
    requires path in tree && ImportBytes(tree, bytes, path, NoFault).Done?
    ensures ImportBytes(tree, bytes, path, fault).tree == tree
    ensures ImportBytes(tree, bytes, path, NoFault).status == Unchanged
  {
  }

  lemma CopiedIfMissing(tree: Tree, bytes: seq<Byte>, path: Path)
    requires path !in tree && ImportBytes(tree, bytes, path, NoFault).Done?
    ensures ParentsFree(tree, path) && ImportBytes(tree, bytes, path, NoFault).status == Copied
  {
  }

  lemma RetryBytes(tree: Tree, bytes: seq<Byte>, path: Path, fault: Fault)
    requires path !in tree && ParentsFree(tree, path)
    requires ImportBytes(tree, bytes, path, fault).Raised?
    ensures var left := ImportBytes(tree, bytes, path, fault).tree;
            var retry := ImportBytes(left, bytes, path, NoFault);
            && (retry.Done? <==> !(fault.Write? && fault.written < |bytes|))
            && (retry.Done? ==> retry.tree == ImportBytes(tree, bytes, path, NoFault).tree)
            && (retry.Raised? ==> retry == Raised(left, RefusesToOverwrite))
  {
    RemainingParents(tree, path, |path|);
    if fault.MakeDirs? {
      RemainingParents(tree, path, if fault.made < |path| then fault.made else |path|);
    }
    if fault.Write? && fault.written >= |bytes| {
      assert bytes[..|bytes|] == bytes;
    }
    hide WithParents, ParentsFree;
  }

  /** The tree a failed run had reached when the file that stopped it came up. */
  ghost function StoppedIn(checkout: Checkout, tree: Tree, plan: seq<PlannedFile>, faults: seq<Fault>): Tree
    requires |faults| == |plan| && Import(checkout, tree, plan, faults).Failure?
    decreases |plan|
  {
    match ImportOne(checkout, tree, plan[0], faults[0])
    case Raised(_, _) => tree
    case Done(t, _) => StoppedIn(checkout, t, plan[1..], faults[1..])
  }

  lemma {:induction false} StoppingStep(
      checkout: Checkout, tree: Tree, plan: seq<PlannedFile>, faults: seq<Fault>)
    requires |faults| == |plan| && Import(checkout, tree, plan, faults).Failure?
    ensures var failed := Import(checkout, tree, plan, faults); var k := |failed.statuses|;
            && k < |plan|
            && ImportOne(checkout, StoppedIn(checkout, tree, plan, faults), plan[k], faults[k])
               == Raised(failed.tree, failed.error)
    decreases |plan|
  {
    hide ImportOne;
    var step := ImportOne(checkout, tree, plan[0], faults[0]);
    if step.Done? {
      StoppingStep(checkout, step.tree, plan[1..], faults[1..]);
    }
  }

  /** A retry after a failure reports the files that got through as "unchanged" and
      carries on, from the tree the failure left, at the file the run stopped at. */
  lemma RetryResumes(checkout: Checkout, tree: Tree, plan: seq<PlannedFile>, faults: seq<Fault>)
    requires |faults| == |plan| && Import(checkout, tree, plan, faults).Failure?
    ensures var failed := Import(checkout, tree, plan, faults); var k := |failed.statuses|;
            && k < |plan|
            && Import(checkout, failed.tree, plan, NoFaults(|plan|)) ==
               Resumed(AllUnchanged(k), Import(checkout, failed.tree, plan[k..], NoFaults(|plan| - k)))
  {
    var failed := Import(checkout, tree, plan, faults);
    ImportedFilesEqualSources(checkout, tree, plan, faults);
    StoppingStep(checkout, tree, plan, faults);
    InPlaceIsSkipped(checkout, failed.tree, plan, |failed.statuses|);
  }

  /** If only a fault stopped the run, the retry gets past that file exactly when no
      partial file was left there, and then has the tree an undisturbed import of it
      would have left. */
  lemma RetryGetsPastFault(checkout: Checkout, tree: Tree, plan: seq<PlannedFile>, faults: seq<Fault>)
    requires |faults| == |plan| && Import(checkout, tree, plan, faults).Failure?
    requires var k := |Import(checkout, tree, plan, faults).statuses|;
             k < |plan| && ImportOne(checkout, StoppedIn(checkout, tree, plan, faults), plan[k], NoFault).Done?
    ensures var failed := Import(checkout, tree, plan, faults); var k := |failed.statuses|;
            var stoppedIn := StoppedIn(checkout, tree, plan, faults);
            var retry := ImportOne(checkout, failed.tree, plan[k], NoFault);
            && (retry.Done? <==> !LeavesPartialFile(checkout, stoppedIn, plan[k], faults[k]))
            && (retry.Done? ==> retry.tree == ImportOne(checkout, stoppedIn, plan[k], NoFault).tree)
  {
    StoppingStep(checkout, tree, plan, faults);
    var k := |Import(checkout, tree, plan, faults).statuses|;
    RetryOne(checkout, StoppedIn(checkout, tree, plan, faults), plan[k], faults[k]);
  }

  // ------------------------------------------------------------ a real failure

  /** A root with nothing in it, and one source of one byte. */
  function SampleCheckout(): Checkout { Checkout(["aosp"], (p: Path) => p) }
  function SampleFile(): PlannedFile { PlannedFile(["apk"], false, ["app"]) }
  function SampleTree(): Tree { map[[] := Directory, ["aosp"] := Directory, ["apk"] := File([7])] }
  const SAMPLE_PATH: Path := ["aosp", "app"]

  lemma SampleDestination()
    ensures SafeDestination(SampleCheckout(), SampleFile()) == Safe(SAMPLE_PATH)
  {
    assert "app"[0] != '.' && ".." != "app";
    assert ["aosp"] + ["app"] == SAMPLE_PATH;
    assert ["aosp"] <= SAMPLE_PATH;
  }

  lemma SamplePaths()
    ensures SAMPLE_PATH !in SampleTree() && ParentsFree(SampleTree(), SAMPLE_PATH)
    ensures WithParents(SampleTree(), SAMPLE_PATH, 2) == SampleTree()
    ensures ["apk"] in SampleTree() && SampleTree()[["apk"]] == File([7])
  {
    assert "aosp"[1] != "apk"[1];
    assert ["aosp"][0] != ["apk"][0];
    forall q: Path | |q| < 2 && q <= SAMPLE_PATH ensures q in SampleTree() {
      if |q| == 0 {
        assert q == [];
      } else {
        assert q == ["aosp"];
      }
    }
  }

  /** A write that fails before its first byte leaves an empty file, and every later run
      refuses to overwrite it; without the fault the run succeeds. */
  lemma PartialFileStopsRetries()
    ensures var left := SampleTree()[SAMPLE_PATH := File([])];
      && Import(SampleCheckout(), SampleTree(), [SampleFile()], [Write(0)]) == Failure(left, [], WriteFailed)
      && Import(SampleCheckout(), left, [SampleFile()], [NoFault]) == Failure(left, [], RefusesToOverwrite)
      && Import(SampleCheckout(), SampleTree(), [SampleFile()], [NoFault]).Success?
      && LeavesPartialFile(SampleCheckout(), SampleTree(), SampleFile(), Write(0))
  {
    SampleDestination();
    SamplePaths();
    hide SafeDestination, SampleTree, WithParents, ParentsFree;
    var left := SampleTree()[SAMPLE_PATH := File([])];
    assert [7][..0] == [];
    assert ImportOne(SampleCheckout(), SampleTree(), SampleFile(), Write(0)) == Raised(left, WriteFailed);
    assert SAMPLE_PATH != ["apk"];
    assert ImportOne(SampleCheckout(), left, SampleFile(), NoFault) == Raised(left, RefusesToOverwrite);
  }
}
