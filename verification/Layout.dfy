/** The files of one generator invocation, generator_runner.rs: which paths are
    declared, and whether a directory tree holds exactly those. */
module Layout {
  import opened Core

  /** A relative path by its components, as `PathBuf` compares them. */
  type Path = seq<string>

  const REQUEST_PATH: Path := ["request.json"]
  const RESULT_PATH: Path := ["result.json"]

  datatype Layout = Layout(files: set<Path>, directories: set<Path>, candidate: Path)

  /** What `Layout::new` establishes. */
  predicate Proper(layout: Layout) {
    && layout.directories == Ancestors(layout.files)
    && layout.directories !! layout.files
    && {REQUEST_PATH, RESULT_PATH, layout.candidate} <= layout.files
    && layout.candidate != RESULT_PATH
  }

  predicate Distinct(paths: seq<Path>) {
    forall i, j :: 0 <= i < j < |paths| ==> paths[i] != paths[j]
  }

  /** No declared file lies beneath another (`<` is the proper-prefix order). */
  predicate Unnested(paths: seq<Path>) {
    forall p, q :: p in paths && q in paths && p != [] ==> !(p < q)
  }

  function Ancestors(files: set<Path>): set<Path> {
    set f, i | f in files && 0 < i < |f| :: f[..i]
  }

  function Declared(manifest: Path, settings: Path, output: Path, objects: seq<Path>): seq<Path> {
    [REQUEST_PATH, RESULT_PATH, manifest, settings, output] + objects
  }

  /** The first loop of `Layout::new`: a set of all files, or a repeated path. */
  method CollectFiles(paths: seq<Path>) returns (files: Option<set<Path>>)
    ensures files.Some? <==> Distinct(paths)
    ensures files.Some? ==> files.value == set p | p in paths
  {
    var found, i := {}, 0;
    while i < |paths|
      invariant i <= |paths| && found == (set p | p in paths[..i]) && Distinct(paths[..i])
    {
      if paths[i] in found {
        return None;
      }
      found := found + {paths[i]};
      assert paths[..i + 1] == paths[..i] + [paths[i]];
      i := i + 1;
    }
    assert paths[..i] == paths;
    return Some(found);
  }

  function AncestorsFrom(f: Path, low: nat): set<Path> {
    set i | low < i < |f| :: f[..i]
  }

  lemma AncestorsAdd(files: set<Path>, f: Path)
    ensures Ancestors(files + {f}) == Ancestors(files) + AncestorsFrom(f, 0)
  {
    forall p | p in Ancestors(files + {f}) ensures p in Ancestors(files) + AncestorsFrom(f, 0) {
      var g, i :| g in files + {f} && 0 < i < |g| && p == g[..i];
    }
    forall p | p in AncestorsFrom(f, 0) ensures p in Ancestors(files + {f}) {
      var i :| 0 < i < |f| && p == f[..i];
    }
  }

  /** The parent chain of one file: its non-empty proper ancestors, unless a file is
      among them. */
  method WalkUp(files: set<Path>, f: Path) returns (r: Option<set<Path>>)
    ensures r.Some? <==> AncestorsFrom(f, 0) !! files
    ensures r.Some? ==> r.value == AncestorsFrom(f, 0)
  {
    if f == [] {
      return Some({});
    }
    var found: set<Path>, parent := {}, f[..|f| - 1];
    while parent != []
      invariant |parent| < |f| && parent == f[..|parent|]
      invariant found == AncestorsFrom(f, |parent|) && found !! files
      decreases |parent|
    {
      assert parent in AncestorsFrom(f, 0);
      if parent in files {
        return None;
      }
      assert AncestorsFrom(f, |parent| - 1) == AncestorsFrom(f, |parent|) + {parent};
      found := found + {parent};
      parent := parent[..|parent| - 1];
    }
    return Some(found);
  }

  lemma NestingIsAnAncestor(paths: seq<Path>, files: set<Path>)
    requires files == set p | p in paths
    ensures Unnested(paths) <==> Ancestors(files) !! files
  {
    if Unnested(paths) {
      forall p | p in Ancestors(files) ensures p !in files {
        var f, i :| f in files && 0 < i < |f| && p == f[..i];
      }
    } else {
      var p, q :| p in paths && q in paths && p != [] && p < q;
      assert p == q[..|p|];
      assert p in Ancestors(files);
    }
  }

  /** `Layout::new`: succeeds exactly when the declared paths are distinct and
      unnested, and then the directories are their non-empty proper ancestors. */
  method New(manifest: Path, settings: Path, output: Path, objects: seq<Path>) returns (r: Option<Layout>)
    ensures var paths := Declared(manifest, settings, output, objects);
            && (r.Some? <==> Distinct(paths) && Unnested(paths))
            && (r.Some? ==> Proper(r.value) && r.value.files == (set p | p in paths) && r.value.candidate == output)
  {
    var paths := Declared(manifest, settings, output, objects);
    var collected := CollectFiles(paths);
    if collected.None? {
      return None;
    }
    var files := collected.value;
    NestingIsAnAncestor(paths, files);
    var todo, directories := files, {};
    assert files - todo == {};
    while todo != {}
      invariant todo <= files && directories == Ancestors(files - todo) && directories !! files
      decreases todo
    {
      var f :| f in todo;
      var above := WalkUp(files, f);
      AncestorsAdd(files - todo, f);
      AncestorsAdd(files, f);
      assert files + {f} == files;
      if above.None? {
        return None;
      }
      directories := directories + above.value;
      assert files - (todo - {f}) == files - todo + {f};
      todo := todo - {f};
    }
    assert files - todo == files;
    assert paths[1] == RESULT_PATH && paths[4] == output;
    return Some(Layout(files, directories, output));
  }

  // ---- A directory tree

  /** What `DirEntry::file_type` reports; symbolic links and devices are `Other`. */
  datatype Kind = Directory | File | Other

  /** Every entry beneath the root, which is itself left out. */
  type Tree = map<Path, Kind>

  function Parent(p: Path): Path
    requires p != []
  {
    p[..|p| - 1]
  }

  ghost predicate WellFormed(tree: Tree) {
    forall p :: p in tree ==> p != [] && (Parent(p) == [] || (Parent(p) in tree && tree[Parent(p)].Directory?))
  }

  function Entries(tree: Tree, directory: Path): set<Path> {
    set p | p in tree && p != [] && Parent(p) == directory
  }

  predicate Admitted(layout: Layout, p: Path, kind: Kind) {
    (kind.Directory? && p in layout.directories) || (kind.File? && p in layout.files)
  }

  predicate Exists(tree: Tree, p: Path) {
    p == [] || p in tree
  }

  /** The files that must be on disk. */
  function Required(layout: Layout, resultRequired: bool): set<Path> {
    layout.files - {layout.candidate} - if resultRequired then {} else {RESULT_PATH}
  }

  /** The acceptance condition: everything on disk is declared with the right kind,
      everything required is there, and before a run the outputs are not. `faulty`
      holds the paths whose inspection fails. */
  ghost predicate Accepts(layout: Layout, tree: Tree, faulty: set<Path>, resultRequired: bool) {
    && [] !in faulty
    && (forall p :: p in tree ==> p !in faulty && Admitted(layout, p, tree[p]))
    && (forall f :: f in Required(layout, resultRequired) ==> f in tree && tree[f].File?)
    && (!resultRequired ==> !Exists(tree, RESULT_PATH) && !Exists(tree, layout.candidate))
  }

  // ---- The walk

  /** Entries of listed directories, and the part of the current one done so far. */
  ghost predicate Reached(p: Path, listed: set<Path>, done: set<Path>) {
    p != [] && (Parent(p) in listed || p in done)
  }

  /** What the walk knows: all it reached is admitted, the directories among that are
      listed or pending, and the files among that are struck off. */
  ghost predicate Walked(layout: Layout, tree: Tree, faulty: set<Path>, listed: set<Path>, done: set<Path>,
                         pending: set<Path>, required: set<Path>, remaining: set<Path>) {
    && (forall p :: p in tree && Reached(p, listed, done) ==> p !in faulty && Admitted(layout, p, tree[p]))
    && (forall p :: p in tree && tree[p].Directory? && Reached(p, listed, done) ==> p in listed || p in pending)
    && (forall p :: p in pending || p in listed ==> p == [] || (p in tree && tree[p].Directory? && Reached(p, listed, done)))
    && (forall f :: f in remaining <==> f in required && !(f in tree && tree[f].File? && Reached(f, listed, done)))
  }

  lemma WalkEntry(layout: Layout, tree: Tree, faulty: set<Path>, listed: set<Path>, done: set<Path>,
                  pending: set<Path>, required: set<Path>, remaining: set<Path>, p: Path)
    requires Walked(layout, tree, faulty, listed, done, pending, required, remaining)
    requires p in tree && p != [] && p !in faulty && Admitted(layout, p, tree[p])
    ensures Walked(layout, tree, faulty, listed, done + {p},
                   if tree[p].Directory? then pending + {p} else pending, required,
                   if tree[p].File? then remaining - {p} else remaining)
  {
  }

  lemma ListingDone(layout: Layout, tree: Tree, faulty: set<Path>, listed: set<Path>,
                    pending: set<Path>, required: set<Path>, remaining: set<Path>, directory: Path)
    requires Walked(layout, tree, faulty, listed, Entries(tree, directory), pending + {directory}, required, remaining)
    ensures Walked(layout, tree, faulty, listed + {directory}, {}, pending, required, remaining)
  {
    forall p | p in tree && p != []
      ensures Reached(p, listed, Entries(tree, directory)) <==> Reached(p, listed + {directory}, {})
    {
    }
  }

  /** With nothing pending every entry has been reached, by induction on depth. */
  lemma {:induction false} AllReached(layout: Layout, tree: Tree, faulty: set<Path>, listed: set<Path>,
                                      required: set<Path>, remaining: set<Path>, p: Path)
    requires WellFormed(tree) && [] in listed && p in tree
    requires Walked(layout, tree, faulty, listed, {}, {}, required, remaining)
    ensures Reached(p, listed, {})
    decreases |p|
  {
    if Parent(p) != [] {
      AllReached(layout, tree, faulty, listed, required, remaining, Parent(p));
    }
  }

  lemma WalkComplete(layout: Layout, tree: Tree, faulty: set<Path>, listed: set<Path>, required: set<Path>, remaining: set<Path>)
    requires WellFormed(tree) && [] in listed
    requires Walked(layout, tree, faulty, listed, {}, {}, required, remaining)
    ensures forall p :: p in tree ==> p !in faulty && Admitted(layout, p, tree[p])
    ensures remaining == {} <==> forall f :: f in required ==> f in tree && tree[f].File?
  {
    forall p | p in tree ensures Reached(p, listed, {}) {
      AllReached(layout, tree, faulty, listed, required, remaining, p);
    }
  }

  /** One directory: every entry is admitted and queued or struck off, or the walk
      ends at the first that is not. */
  method ListDirectory(layout: Layout, tree: Tree, faulty: set<Path>, directory: Path, ghost listed: set<Path>,
                       pending: seq<Path>, ghost required: set<Path>, remaining: set<Path>)
    returns (r: Option<(seq<Path>, set<Path>)>)
    requires WellFormed(tree) && directory !in listed && directory !in Set(pending) && Distinct(pending)
    requires Set(pending) !! listed
    requires Walked(layout, tree, faulty, listed, {}, Set(pending) + {directory}, required, remaining)
    ensures r.Some? ==> Distinct(r.value.0) && Set(r.value.0) !! listed + {directory}
    ensures r.Some? ==> Walked(layout, tree, faulty, listed + {directory}, {}, Set(r.value.0), required, r.value.1)
    ensures r.None? ==> exists p :: p in Entries(tree, directory) && (p in faulty || !Admitted(layout, p, tree[p]))
  {
    var queue, left, todo := pending, remaining, Entries(tree, directory);
    ghost var done := {};
    while todo != {}
      invariant todo !! done && todo + done == Entries(tree, directory)
      invariant Distinct(queue) && Set(queue) !! listed + {directory}
      invariant Walked(layout, tree, faulty, listed, done, Set(queue) + {directory}, required, left)
      decreases todo
    {
      var p :| p in todo;
      if p in faulty || !Admitted(layout, p, tree[p]) {
        return None;
      }
      assert !Reached(p, listed, done);
      WalkEntry(layout, tree, faulty, listed, done, Set(queue) + {directory}, required, left, p);
      NotYetQueued(layout, tree, faulty, listed, done, Set(queue) + {directory}, required, left, p);
      if tree[p].Directory? {
        assert Set(queue + [p]) + {directory} == Set(queue) + {directory} + {p};
        queue := queue + [p];
      } else {
        left := left - {p};
      }
      todo, done := todo - {p}, done + {p};
    }
    assert done == Entries(tree, directory);
    ListingDone(layout, tree, faulty, listed, Set(queue), required, left, directory);
    return Some((queue, left));
  }

  ghost function Set(paths: seq<Path>): set<Path> {
    set p | p in paths
  }

  lemma NotYetQueued(layout: Layout, tree: Tree, faulty: set<Path>, listed: set<Path>, done: set<Path>,
                     pending: set<Path>, required: set<Path>, remaining: set<Path>, p: Path)
    requires Walked(layout, tree, faulty, listed, done, pending, required, remaining)
    requires p != [] && !Reached(p, listed, done)
    ensures p !in pending && p !in listed
  {
  }

  lemma WalkBegins(layout: Layout, tree: Tree, faulty: set<Path>, required: set<Path>)
    requires WellFormed(tree)
    ensures Walked(layout, tree, faulty, {}, {}, {[]}, required, required)
  {
  }

  lemma Popped(pending: seq<Path>, listed: set<Path>)
    requires pending != [] && Distinct(pending) && Set(pending) !! listed
    ensures var rest, last := pending[..|pending| - 1], pending[|pending| - 1];
            Distinct(rest) && last !in Set(rest) && last !in listed && Set(rest) !! listed && Set(pending) == Set(rest) + {last}
  {
  }

  lemma PendingIsOnDisk(layout: Layout, tree: Tree, faulty: set<Path>, listed: set<Path>, pending: set<Path>,
                        required: set<Path>, remaining: set<Path>, p: Path)
    requires Walked(layout, tree, faulty, listed, {}, pending, required, remaining) && p in pending
    ensures p in tree.Keys + {[]}
    ensures p in faulty ==> p == []
  {
  }

  lemma Refusal(layout: Layout, tree: Tree, faulty: set<Path>, resultRequired: bool, directory: Path)
    requires exists p :: p in Entries(tree, directory) && (p in faulty || !Admitted(layout, p, tree[p]))
    ensures !Accepts(layout, tree, faulty, resultRequired)
  {
  }

  lemma Verdict(layout: Layout, tree: Tree, faulty: set<Path>, listed: set<Path>, resultRequired: bool, remaining: set<Path>)
    requires WellFormed(tree) && [] in listed && [] !in faulty
    requires Walked(layout, tree, faulty, listed, {}, {}, Required(layout, resultRequired), remaining)
    ensures Accepts(layout, tree, faulty, resultRequired)
            <==> remaining == {} && (resultRequired || (!Exists(tree, RESULT_PATH) && !Exists(tree, layout.candidate)))
  {
    WalkComplete(layout, tree, faulty, listed, Required(layout, resultRequired), remaining);
  }

  /** `Layout::verify`: the worklist walk ends on every finite tree and accepts
      exactly when the declarative condition holds. */
  method Verify(layout: Layout, tree: Tree, faulty: set<Path>, resultRequired: bool) returns (ok: bool)
    requires WellFormed(tree)
    ensures ok <==> Accepts(layout, tree, faulty, resultRequired)
  {
    hide Walked, WellFormed, Entries, Admitted, Set, Distinct;
    ghost var required := Required(layout, resultRequired);
    var remaining := Required(layout, resultRequired);
    var pending: seq<Path> := [[]];
    ghost var listed: set<Path> := {};
    WalkBegins(layout, tree, faulty, required);
    RootIsPending();
    while pending != []
      invariant Distinct(pending) && Set(pending) !! listed && listed <= tree.Keys + {[]}
      invariant [] in listed || pending == [[]]
      invariant [] in listed ==> [] !in faulty
      invariant Walked(layout, tree, faulty, listed, {}, Set(pending), required, remaining)
      decreases tree.Keys + {[]} - listed
    {
      var directory := pending[|pending| - 1];
      Popped(pending, listed);
      PendingIsOnDisk(layout, tree, faulty, listed, Set(pending), required, remaining, directory);
      pending := pending[..|pending| - 1];
      if directory in faulty {
        return false;
      }
      var next := ListDirectory(layout, tree, faulty, directory, listed, pending, required, remaining);
      if next.None? {
        Refusal(layout, tree, faulty, resultRequired, directory);
        return false;
      }
      pending, remaining := next.value.0, next.value.1;
      listed := listed + {directory};
    }
    NothingPending(pending);
    Verdict(layout, tree, faulty, listed, resultRequired, remaining);
    if remaining != {} {
      return false;
    }
    return resultRequired || (!Exists(tree, RESULT_PATH) && !Exists(tree, layout.candidate));
  }

  lemma RootIsPending()
    ensures Set([[]]) == {[]} && Distinct([[]])
  {
    assert Set([[]]) == {[]};
  }

  lemma NothingPending(pending: seq<Path>)
    requires pending == []
    ensures Set(pending) == {}
  {
  }

  // ---- What acceptance says about an invocation

  ghost function FilesOn(tree: Tree): set<Path> {
    set p | p in tree && tree[p].File?
  }

  ghost predicate Plain(layout: Layout, tree: Tree) {
    forall p :: p in tree ==> !tree[p].Other? && (tree[p].Directory? ==> p in layout.directories)
  }

  /** An inspection that fails anywhere, the root included, refuses the tree. */
  lemma FaultsAreFatal(layout: Layout, tree: Tree, faulty: set<Path>, resultRequired: bool)
    ensures Accepts(layout, tree, faulty, resultRequired)
            <==> Accepts(layout, tree, {}, resultRequired) && [] !in faulty && forall p :: p in tree ==> p !in faulty
  {
  }

  /** Before the run the files on disk are the declared ones minus the two outputs. */
  lemma AcceptsBeforeExactly(layout: Layout, tree: Tree)
    requires Proper(layout) && WellFormed(tree) && layout.candidate != []
    ensures Accepts(layout, tree, {}, false)
            <==> Plain(layout, tree) && FilesOn(tree) == layout.files - {layout.candidate, RESULT_PATH}
  {
    if Accepts(layout, tree, {}, false) {
      assert FilesOn(tree) == layout.files - {layout.candidate, RESULT_PATH};
    }
    if Plain(layout, tree) && FilesOn(tree) == layout.files - {layout.candidate, RESULT_PATH} {
      forall p | p in tree ensures Admitted(layout, p, tree[p]) {
        assert tree[p].File? ==> p in FilesOn(tree);
      }
      forall f | f in Required(layout, false) ensures f in tree && tree[f].File? {
        assert f in FilesOn(tree);
      }
      OutputIsNotADirectory(layout, tree, RESULT_PATH);
      OutputIsNotADirectory(layout, tree, layout.candidate);
    }
  }

  lemma OutputIsNotADirectory(layout: Layout, tree: Tree, p: Path)
    requires Proper(layout) && WellFormed(tree) && Plain(layout, tree) && p in layout.files
    ensures p in tree ==> p in FilesOn(tree)
  {
  }

  /** After the run they are the declared ones, the candidate being optional. */
  lemma AcceptsAfterExactly(layout: Layout, tree: Tree)
    requires Proper(layout) && WellFormed(tree)
    ensures Accepts(layout, tree, {}, true)
            <==> Plain(layout, tree) && layout.files - {layout.candidate} <= FilesOn(tree) <= layout.files
  {
    if Plain(layout, tree) && layout.files - {layout.candidate} <= FilesOn(tree) <= layout.files {
      forall p | p in tree ensures Admitted(layout, p, tree[p]) {
        assert tree[p].File? ==> p in FilesOn(tree);
      }
      forall f | f in Required(layout, true) ensures f in tree && tree[f].File? {
        assert f in FilesOn(tree);
      }
    }
  }

  /** The tree `stage` builds: every declared directory, and the inputs. */
  function Staged(layout: Layout): Tree {
    map p | p in layout.directories + (layout.files - {layout.candidate, RESULT_PATH}) ::
      if p in layout.directories then Directory else File
  }

  lemma StagedIsWellFormed(layout: Layout)
    requires Proper(layout) && [] !in layout.files
    ensures WellFormed(Staged(layout)) && Plain(layout, Staged(layout))
    ensures FilesOn(Staged(layout)) == layout.files - {layout.candidate, RESULT_PATH}
  {
    hide Ancestors;
    forall p | p in Staged(layout) ensures p != [] && (Parent(p) == [] || Parent(p) in layout.directories) {
      ParentIsDeclared(layout, p);
    }
  }

  lemma WrittenFile(layout: Layout, tree: Tree, p: Path)
    requires Proper(layout) && [] !in layout.files && p in layout.files
    requires WellFormed(tree) && Plain(layout, tree)
    requires forall d :: d in layout.directories ==> d in tree && tree[d].Directory?
    ensures WellFormed(tree[p := File]) && Plain(layout, tree[p := File])
    ensures FilesOn(tree[p := File]) == FilesOn(tree) + {p}
  {
    hide Ancestors;
    ParentIsDeclared(layout, p);
  }

  /** Staging passes the check before the run, and a run that writes just its result,
      or its result and its candidate, passes the check after it. */
  lemma StagingIsAccepted(layout: Layout)
    requires Proper(layout) && [] !in layout.files
    ensures WellFormed(Staged(layout)) && Accepts(layout, Staged(layout), {}, false)
    ensures var ran := Staged(layout)[RESULT_PATH := File];
            && WellFormed(ran) && Accepts(layout, ran, {}, true)
            && WellFormed(ran[layout.candidate := File]) && Accepts(layout, ran[layout.candidate := File], {}, true)
  {
    hide Ancestors, Accepts, WellFormed, Plain, FilesOn;
    var ran := Staged(layout)[RESULT_PATH := File];
    StagedIsWellFormed(layout);
    AcceptsBeforeExactly(layout, Staged(layout));
    WrittenFile(layout, Staged(layout), RESULT_PATH);
    AcceptsAfterExactly(layout, ran);
    WrittenFile(layout, ran, layout.candidate);
    AcceptsAfterExactly(layout, ran[layout.candidate := File]);
  }

  lemma ParentIsDeclared(layout: Layout, p: Path)
    requires Proper(layout) && [] !in layout.files && p in layout.files + layout.directories
    ensures p != [] && (Parent(p) == [] || Parent(p) in layout.directories)
  {
    if p in layout.files {
      assert Parent(p) == p[..|p| - 1];
    } else {
      var f, i :| f in layout.files && 0 < i < |f| && p == f[..i];
      assert Parent(p) == f[..i - 1];
    }
  }
}
