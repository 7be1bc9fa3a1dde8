/**
 * The workspace: a directory whose regular files, found by a top-down walk
 * of the tree below it, are collected as `WorkspaceFile` records.
 *
 * The file system is a parameter: the tree of entries below the workspace
 * directory, or `None` when that directory cannot be listed (then `os.walk`
 * yields nothing). Each non-directory entry records the answer
 * `os.path.isfile` gives for its path.
 */
module Workspace {
  import opened Wrappers
  import opened PyText
  import opened PosixPath

  /** An entry of a directory listing. */
  datatype Node =
    | File(name: string, regular: bool)
    | Folder(name: string, entries: seq<Node>)

  /** A name in the `files` list of one walk step, with the `isfile` answer for its path. */
  datatype FileEntry = FileEntry(name: string, isFile: bool)

  /** One triple `(root, dirs, files)` that `os.walk` yields. */
  datatype WalkStep = WalkStep(root: string, dirs: seq<string>, files: seq<FileEntry>)

  /** Every name in the tree is a single path component. */
  predicate ValidTree(entries: seq<Node>)
    decreases entries
  {
    forall i :: 0 <= i < |entries| ==>
      IsEntryName(entries[i].name) && (entries[i].Folder? ==> ValidTree(entries[i].entries))
  }

  /** The names of the subdirectories, in listing order. */
  function DirNames(entries: seq<Node>): (r: seq<string>)
    ensures |r| <= |entries|
  {
    if entries == [] then []
    else (if entries[0].Folder? then [entries[0].name] else []) + DirNames(entries[1..])
  }

  /** The other entries, in listing order. */
  function FileEntries(entries: seq<Node>): (r: seq<FileEntry>)
    ensures |r| <= |entries|
    ensures forall k :: 0 <= k < |entries| && entries[k].File? ==>
              FileEntry(entries[k].name, entries[k].regular) in r
  {
    if entries == [] then []
    else
      var rest := FileEntries(entries[1..]);
      assert forall k :: 1 <= k < |entries| ==> entries[k] == entries[1..][k - 1];
      (if entries[0].File? then [FileEntry(entries[0].name, entries[0].regular)] else []) + rest
  }

  /**
   * `os.walk(top)` over a listable directory, top-down: the step for `top`
   * first, then, for each subdirectory in listing order, the walk below it.
   */
  function Walk(top: string, entries: seq<Node>): (r: seq<WalkStep>)
    ensures |r| > 0 && r[0] == WalkStep(top, DirNames(entries), FileEntries(entries))
    decreases entries, 1
  {
    [WalkStep(top, DirNames(entries), FileEntries(entries))] + WalkSubdirs(top, entries)
  }

  function WalkSubdirs(top: string, entries: seq<Node>): seq<WalkStep>
    decreases entries, 0
  {
    if entries == [] then []
    else
      (match entries[0]
       case Folder(n, sub) => Walk(Join(top, n), sub)
       case File(_, _) => [])
      + WalkSubdirs(top, entries[1..])
  }

  /** `os.walk(directory)`, which yields nothing when the directory cannot be listed. */
  function WalkTop(directory: string, tree: Option<seq<Node>>): seq<WalkStep> {
    match tree
    case None => []
    case Some(entries) => Walk(directory, entries)
  }

  /**
   * A `WorkspaceFile`: the path it was created with and the last component of
   * that path. `WorkspaceFile.__init__` accepts a `type` argument and keeps
   * nothing of it.
   */
  datatype WorkspaceFile = WorkspaceFile(filepath: string, filename: string)

  function NewWorkspaceFile(filepath: string, fileType: Option<string>): WorkspaceFile {
    WorkspaceFile(filepath, Basename(filepath))
  }

  /**
   * A record keeps its path, and its `filename` is the part of the path after
   * the last `/`: no `/` in it, and the path ends with it.
   */
  lemma WorkspaceFileParts(filepath: string, fileType: Option<string>)
    ensures var f := NewWorkspaceFile(filepath, fileType);
            && f.filepath == filepath
            && '/' !in f.filename && EndsWith(filepath, f.filename)
            && (|f.filename| < |filepath| ==> filepath[|filepath| - |f.filename| - 1] == '/')
  {
    BasenameIsLastComponent(filepath);
  }

  /** The type argument has no effect on the record. */
  lemma TypeIgnored(filepath: string, t1: Option<string>, t2: Option<string>)
    ensures NewWorkspaceFile(filepath, t1) == NewWorkspaceFile(filepath, t2)
  {
  }

  /** The records the inner loop appends for one walk step: one per name for which `isfile` holds. */
  function StepFiles(root: string, files: seq<FileEntry>): seq<WorkspaceFile>
    decreases |files|
  {
    if files == [] then []
    else
      var last := files[|files| - 1];
      StepFiles(root, files[..|files| - 1])
      + (if last.isFile then [NewWorkspaceFile(Join(root, last.name), None)] else [])
  }

  lemma StepFilesSnoc(root: string, files: seq<FileEntry>, j: nat)
    requires j < |files|
    ensures StepFiles(root, files[..j + 1]) == StepFiles(root, files[..j])
              + (if files[j].isFile then [NewWorkspaceFile(Join(root, files[j].name), None)] else [])
  {
    assert files[..j + 1][..j] == files[..j];
  }

  /** The records appended for a sequence of walk steps. */
  function FilesOf(walk: seq<WalkStep>): seq<WorkspaceFile>
    decreases |walk|
  {
    if walk == [] then []
    else FilesOf(walk[..|walk| - 1]) + StepFiles(walk[|walk| - 1].root, walk[|walk| - 1].files)
  }

  lemma FilesOfSnoc(walk: seq<WalkStep>, i: nat)
    requires i < |walk|
    ensures FilesOf(walk[..i + 1]) == FilesOf(walk[..i]) + StepFiles(walk[i].root, walk[i].files)
  {
    assert walk[..i + 1][..i] == walk[..i];
  }

  /** What `get_workspace_files` appends for `directory` on this file system. */
  function WalkedFiles(directory: string, tree: Option<seq<Node>>): seq<WorkspaceFile> {
    FilesOf(WalkTop(directory, tree))
  }

  class Workspace {
    const directory: string
    const name: string
    var workspaceFiles: seq<WorkspaceFile>

    /** `Workspace(directory)`: named after the directory, then loaded exactly once. */
    constructor (directory: string, tree: Option<seq<Node>>)
      ensures this.directory == directory
      ensures name == Basename(directory)
      ensures workspaceFiles == WalkedFiles(directory, tree)
    {
      this.directory := directory;
      name := Basename(directory);
      workspaceFiles := [];
      new;
      LoadWorkspace(tree);
    }

    /** `get_workspace_files`: appends to the list it finds, without clearing it. */
    method GetWorkspaceFiles(tree: Option<seq<Node>>)
      modifies this
      ensures workspaceFiles == old(workspaceFiles) + WalkedFiles(directory, tree)
    {
      AppendWalkFiles(WalkTop(directory, tree));
    }

    /** The two loops of `get_workspace_files` over the steps `os.walk` yields. */
    method AppendWalkFiles(walk: seq<WalkStep>)
      modifies this
      ensures workspaceFiles == old(workspaceFiles) + FilesOf(walk)
    {
      for i := 0 to |walk|
        invariant workspaceFiles == old(workspaceFiles) + FilesOf(walk[..i])
      {
        var step := walk[i];
        ghost var before := workspaceFiles;
        for j := 0 to |step.files|
          invariant workspaceFiles == before + StepFiles(step.root, step.files[..j])
        {
          var file := step.files[j];
          var filepath := Join(step.root, file.name);
          StepFilesSnoc(step.root, step.files, j);
          if file.isFile {
            var workspaceFile := NewWorkspaceFile(filepath, None);
            workspaceFiles := workspaceFiles + [workspaceFile];
            assert workspaceFiles == before + (StepFiles(step.root, step.files[..j]) + [workspaceFile]);
          }
        }
        assert step.files[..|step.files|] == step.files;
        FilesOfSnoc(walk, i);
        assert workspaceFiles == old(workspaceFiles) + (FilesOf(walk[..i]) + StepFiles(step.root, step.files));
      }
      assert walk[..|walk|] == walk;
    }

    method LoadWorkspace(tree: Option<seq<Node>>)
      modifies this
      ensures workspaceFiles == old(workspaceFiles) + WalkedFiles(directory, tree)
    {
      GetWorkspaceFiles(tree);
    }
  }

  // ---------------------------------------------------------------------
  // What the collected list holds

  /** The regular files anywhere in the tree. */
  function RegularCount(entries: seq<Node>): nat
    decreases entries
  {
    if entries == [] then 0
    else
      (match entries[0]
       case File(_, regular) => if regular then 1 else 0
       case Folder(_, sub) => RegularCount(sub))
      + RegularCount(entries[1..])
  }

  /** The regular files directly in one directory. */
  function LocalCount(entries: seq<Node>): nat {
    if entries == [] then 0
    else (if entries[0].File? && entries[0].regular then 1 else 0) + LocalCount(entries[1..])
  }

  /** The regular files in the subdirectories of one directory. */
  function NestedCount(entries: seq<Node>): nat
    decreases entries
  {
    if entries == [] then 0
    else (if entries[0].Folder? then RegularCount(entries[0].entries) else 0) + NestedCount(entries[1..])
  }

  lemma {:induction false} CountSplit(entries: seq<Node>)
    ensures RegularCount(entries) == LocalCount(entries) + NestedCount(entries)
    decreases entries
  {
    if entries != [] {
      CountSplit(entries[1..]);
    }
  }

  lemma {:induction false} FilesOfAppend(a: seq<WalkStep>, b: seq<WalkStep>)
    ensures FilesOf(a + b) == FilesOf(a) + FilesOf(b)
    decreases |b|
  {
    if b == [] {
      assert a + b == a;
    } else {
      var ab := a + b;
      assert ab[..|ab| - 1] == a + b[..|b| - 1];
      assert ab[|ab| - 1] == b[|b| - 1];
      FilesOfAppend(a, b[..|b| - 1]);
    }
  }

  /** One record per name for which `isfile` holds. */
  lemma {:induction false} StepFilesCount(root: string, files: seq<FileEntry>)
    ensures |StepFiles(root, files)| == |set k | 0 <= k < |files| && files[k].isFile|
    decreases |files|
  {
    if files != [] {
      var init := files[..|files| - 1];
      StepFilesCount(root, init);
      var before := set k | 0 <= k < |init| && init[k].isFile;
      var now := set k | 0 <= k < |files| && files[k].isFile;
      if files[|files| - 1].isFile {
        assert now == before + {|files| - 1};
      } else {
        assert now == before;
      }
    }
  }

  lemma {:induction false} LocalFilesCount(root: string, entries: seq<Node>)
    ensures |StepFiles(root, FileEntries(entries))| == LocalCount(entries)
    decreases |entries|
  {
    if entries != [] {
      LocalFilesCount(root, entries[1..]);
      var e := entries[0];
      if e.File? {
        StepFilesPrepend(root, FileEntry(e.name, e.regular), FileEntries(entries[1..]));
      } else {
        assert FileEntries(entries) == FileEntries(entries[1..]);
      }
    }
  }

  lemma {:induction false} StepFilesPrepend(root: string, f: FileEntry, files: seq<FileEntry>)
    ensures StepFiles(root, [f] + files)
            == (if f.isFile then [NewWorkspaceFile(Join(root, f.name), None)] else []) + StepFiles(root, files)
    decreases |files|
  {
    if files != [] {
      var all := [f] + files;
      assert all[..|all| - 1] == [f] + files[..|files| - 1];
      StepFilesPrepend(root, f, files[..|files| - 1]);
    } else {
      assert ([f] + files)[..0] == [];
    }
  }

  /**
   * The walk collects exactly as many records as the tree holds regular
   * files, at any depth.
   */
  lemma {:induction false} WalkCount(top: string, entries: seq<Node>)
    ensures |FilesOf(Walk(top, entries))| == RegularCount(entries)
    decreases entries, 1
  {
    var step := WalkStep(top, DirNames(entries), FileEntries(entries));
    FilesOfAppend([step], WalkSubdirs(top, entries));
    assert FilesOf([step]) == StepFiles(top, FileEntries(entries)) by {
      assert [step][..0] == [];
    }
    LocalFilesCount(top, entries);
    SubdirsCount(top, entries);
    CountSplit(entries);
  }

  lemma {:induction false} SubdirsCount(top: string, entries: seq<Node>)
    ensures |FilesOf(WalkSubdirs(top, entries))| == NestedCount(entries)
    decreases entries, 0
  {
    if entries != [] {
      var head := match entries[0]
        case Folder(n, sub) => Walk(Join(top, n), sub)
        case File(_, _) => [];
      FilesOfAppend(head, WalkSubdirs(top, entries[1..]));
      SubdirsCount(top, entries[1..]);
      match entries[0]
      case Folder(n, sub) =>
        WalkCount(Join(top, n), sub);
      case File(_, _) =>
    }
  }

  /**
   * No filtering by name or extension: every name the walk lists for which
   * `isfile` holds is collected, with that name as `filename`.
   */
  lemma {:induction false} StepFilesComplete(root: string, files: seq<FileEntry>, k: nat)
    requires k < |files| && files[k].isFile && IsEntryName(files[k].name)
    ensures WorkspaceFile(Join(root, files[k].name), files[k].name) in StepFiles(root, files)
    decreases |files|
  {
    var init := files[..|files| - 1];
    var last := files[|files| - 1];
    if k == |files| - 1 {
      BasenameOfJoin(root, last.name);
      assert StepFiles(root, files) == StepFiles(root, init) + [NewWorkspaceFile(Join(root, last.name), None)];
    } else {
      assert init[k] == files[k];
      StepFilesComplete(root, init, k);
    }
  }

  /** Conversely, every record comes from a listed name for which `isfile` holds. */
  lemma {:induction false} StepFilesSound(root: string, files: seq<FileEntry>, f: WorkspaceFile)
    requires forall k :: 0 <= k < |files| ==> IsEntryName(files[k].name)
    requires f in StepFiles(root, files)
    ensures exists k :: 0 <= k < |files| && files[k].isFile && f == WorkspaceFile(Join(root, files[k].name), files[k].name)
    decreases |files|
  {
    var init := files[..|files| - 1];
    var last := files[|files| - 1];
    if f in StepFiles(root, init) {
      assert forall k :: 0 <= k < |init| ==> init[k] == files[k];
      StepFilesSound(root, init, f);
    } else {
      BasenameOfJoin(root, last.name);
      assert f == NewWorkspaceFile(Join(root, last.name), None);
    }
  }

  /** A record belongs to the collected list exactly when it comes from one of the walk's steps. */
  lemma {:induction false} FilesOfMembers(walk: seq<WalkStep>, f: WorkspaceFile)
    ensures f in FilesOf(walk) <==> exists i :: 0 <= i < |walk| && f in StepFiles(walk[i].root, walk[i].files)
    decreases |walk|
  {
    if walk != [] {
      var init := walk[..|walk| - 1];
      FilesOfMembers(init, f);
      assert forall i :: 0 <= i < |init| ==> init[i] == walk[i];
    }
  }

  /**
   * Every regular file directly in the workspace directory is collected,
   * whatever its name, with its own name as `filename`.
   */
  lemma TopLevelFileCollected(directory: string, entries: seq<Node>, k: nat)
    requires ValidTree(entries)
    requires k < |entries| && entries[k].File? && entries[k].regular
    ensures WorkspaceFile(Join(directory, entries[k].name), entries[k].name)
            in WalkedFiles(directory, Some(entries))
  {
    StepFileCollected(Walk(directory, entries), directory, entries, k);
  }

  lemma {:induction false} FileEntryNames(entries: seq<Node>, f: FileEntry)
    requires ValidTree(entries) && f in FileEntries(entries)
    ensures IsEntryName(f.name)
    decreases |entries|
  {
    if f !in FileEntries(entries[1..]) {
      assert entries[0].File? && f.name == entries[0].name;
    } else {
      assert ValidTree(entries[1..]) by {
        assert forall i :: 0 <= i < |entries[1..]| ==> entries[1..][i] == entries[i + 1];
      }
      FileEntryNames(entries[1..], f);
    }
  }

  // ---------------------------------------------------------------------
  // What each step lists, and where the steps come

  /** The subdirectory names of a step are exactly the names of the folders listed, and nothing else. */
  lemma {:induction false} DirNamesListing(entries: seq<Node>)
    ensures forall x :: x in DirNames(entries) <==>
              exists k :: 0 <= k < |entries| && entries[k].Folder? && entries[k].name == x
    decreases |entries|
  {
    if entries != [] {
      DirNamesListing(entries[1..]);
      assert forall k :: 1 <= k < |entries| ==> entries[k] == entries[1..][k - 1];
      forall x | x in DirNames(entries[1..])
        ensures exists k :: 0 <= k < |entries| && entries[k].Folder? && entries[k].name == x
      {
        var k :| 0 <= k < |entries[1..]| && entries[1..][k].Folder? && entries[1..][k].name == x;
        assert entries[k + 1] == entries[1..][k];
      }
    }
  }

  /** The file entries of a step are exactly the other entries listed, each with its `isfile` answer. */
  lemma {:induction false} FileEntriesListing(entries: seq<Node>)
    ensures forall f :: f in FileEntries(entries) <==>
              exists k :: 0 <= k < |entries| && entries[k].File? && f == FileEntry(entries[k].name, entries[k].regular)
    decreases |entries|
  {
    if entries != [] {
      FileEntriesListing(entries[1..]);
      forall f | f in FileEntries(entries[1..])
        ensures exists k :: 0 <= k < |entries| && entries[k].File? && f == FileEntry(entries[k].name, entries[k].regular)
      {
        var k :| 0 <= k < |entries[1..]| && entries[1..][k].File?
                 && f == FileEntry(entries[1..][k].name, entries[1..][k].regular);
        assert entries[k + 1] == entries[1..][k];
      }
    }
  }

  /**
   * The names keep the listing order: those for a listing split in two are
   * the names of the first part followed by those of the second.
   */
  lemma {:induction false} DirNamesOrder(a: seq<Node>, b: seq<Node>)
    ensures DirNames(a + b) == DirNames(a) + DirNames(b)
    decreases |a|
  {
    if a == [] {
      assert a + b == b;
    } else {
      assert (a + b)[0] == a[0] && (a + b)[1..] == a[1..] + b;
      DirNamesOrder(a[1..], b);
      var head := if a[0].Folder? then [a[0].name] else [];
      assert DirNames(a + b) == head + (DirNames(a[1..]) + DirNames(b));
    }
  }

  /** The file entries keep the listing order in the same way. */
  lemma {:induction false} FileEntriesOrder(a: seq<Node>, b: seq<Node>)
    ensures FileEntries(a + b) == FileEntries(a) + FileEntries(b)
    decreases |a|
  {
    if a == [] {
      assert a + b == b;
    } else {
      assert (a + b)[0] == a[0] && (a + b)[1..] == a[1..] + b;
      FileEntriesOrder(a[1..], b);
      var head := if a[0].File? then [FileEntry(a[0].name, a[0].regular)] else [];
      assert FileEntries(a + b) == head + (FileEntries(a[1..]) + FileEntries(b));
    }
  }

  lemma {:induction false} SubdirsAppend(top: string, a: seq<Node>, b: seq<Node>)
    ensures WalkSubdirs(top, a + b) == WalkSubdirs(top, a) + WalkSubdirs(top, b)
    decreases |a|
  {
    if a == [] {
      assert a + b == b;
    } else {
      assert (a + b)[0] == a[0] && (a + b)[1..] == a[1..] + b;
      SubdirsAppend(top, a[1..], b);
    }
  }

  /**
   * Where a subdirectory's walk lies in its parent's: a contiguous block,
   * after the parent's own step and the blocks of the folders listed before
   * it, that starts with the subdirectory's own step. So every directory is
   * yielded before everything below it, and sibling subtrees in listing
   * order.
   */
  lemma SubwalkAt(top: string, entries: seq<Node>, k: nat)
    requires k < |entries| && entries[k].Folder?
    ensures var w := Walk(top, entries);
            var child := Join(top, entries[k].name);
            var sub := Walk(child, entries[k].entries);
            var o := 1 + FolderCount(entries[..k]);
            && o + |sub| <= |w| && w[o..o + |sub|] == sub
            && w[o] == WalkStep(child, DirNames(entries[k].entries), FileEntries(entries[k].entries))
  {
    var sub := Walk(Join(top, entries[k].name), entries[k].entries);
    var ws := WalkSubdirs(top, entries);
    var f := FolderCount(entries[..k]);
    SubdirsBlock(top, entries, k);
    var first := WalkStep(top, DirNames(entries), FileEntries(entries));
    assert Walk(top, entries) == [first] + ws;
    SliceAfter([first], ws, f, |sub|);
  }

  lemma SubdirsBlock(top: string, entries: seq<Node>, k: nat)
    requires k < |entries| && entries[k].Folder?
    ensures var sub := Walk(Join(top, entries[k].name), entries[k].entries);
            var ws := WalkSubdirs(top, entries);
            var f := FolderCount(entries[..k]);
            f + |sub| <= |ws| && ws[f..f + |sub|] == sub
  {
    var sub := Walk(Join(top, entries[k].name), entries[k].entries);
    var before, after := entries[..k], entries[k + 1..];
    assert entries == before + entries[k..];
    SubdirsAppend(top, before, entries[k..]);
    assert entries[k..][0] == entries[k] && entries[k..][1..] == after;
    var a := WalkSubdirs(top, before);
    var rest := WalkSubdirs(top, after);
    assert WalkSubdirs(top, entries[k..]) == sub + rest;
    SubdirsLength(top, before);
    assert WalkSubdirs(top, entries) == a + (sub + rest);
    SliceAfter(a, sub + rest, 0, |sub|);
    assert (sub + rest)[0..|sub|] == sub;
  }

  /** A slice of the second part of a concatenation. */
  lemma SliceAfter<T>(x: seq<T>, y: seq<T>, f: nat, n: nat)
    requires f + n <= |y|
    ensures (x + y)[|x| + f..|x| + f + n] == y[f..f + n]
  {
  }

  /** One step per folder below the listing. */
  lemma {:induction false} SubdirsLength(top: string, entries: seq<Node>)
    ensures |WalkSubdirs(top, entries)| == FolderCount(entries)
    decreases entries
  {
    if entries != [] {
      SubdirsLength(top, entries[1..]);
      match entries[0]
      case File(_, _) =>
      case Folder(n, sub) =>
        SubdirsLength(Join(top, n), sub);
    }
  }

  /** `path` leads, index by index, through folders of the tree. */
  predicate IsFolderPath(entries: seq<Node>, path: seq<nat>)
    decreases |path|
  {
    path == []
    || (path[0] < |entries| && entries[path[0]].Folder? && IsFolderPath(entries[path[0]].entries, path[1..]))
  }

  /** The directory `path` leads to: its names joined one by one onto `top`, and its listing. */
  function DirAt(top: string, entries: seq<Node>, path: seq<nat>): (string, seq<Node>)
    requires IsFolderPath(entries, path)
    decreases |path|
  {
    if path == [] then (top, entries)
    else DirAt(Join(top, entries[path[0]].name), entries[path[0]].entries, path[1..])
  }

  /** The directory a path leads to is as well formed as the tree. */
  lemma {:induction false} DirAtValid(top: string, entries: seq<Node>, path: seq<nat>)
    requires ValidTree(entries) && IsFolderPath(entries, path)
    ensures ValidTree(DirAt(top, entries, path).1)
    decreases |path|
  {
    if path != [] {
      DirAtValid(Join(top, entries[path[0]].name), entries[path[0]].entries, path[1..]);
    }
  }

  /** The walk has a step for every directory of the tree, at any depth, listing that directory. */
  lemma {:induction false} StepInWalk(top: string, entries: seq<Node>, path: seq<nat>)
    requires IsFolderPath(entries, path)
    ensures var d := DirAt(top, entries, path);
            WalkStep(d.0, DirNames(d.1), FileEntries(d.1)) in Walk(top, entries)
    decreases |path|
  {
    if path == [] {
      assert Walk(top, entries)[0] == WalkStep(top, DirNames(entries), FileEntries(entries));
    } else {
      var k := path[0];
      var folder := entries[k];
      var child := Join(top, folder.name);
      StepInWalk(child, folder.entries, path[1..]);
      SubwalkAt(top, entries, k);
      var d := DirAt(child, folder.entries, path[1..]);
      assert DirAt(top, entries, path) == d;
      InBlock(Walk(top, entries), 1 + FolderCount(entries[..k]), Walk(child, folder.entries),
              WalkStep(d.0, DirNames(d.1), FileEntries(d.1)));
    }
  }

  lemma InBlock<T>(w: seq<T>, o: nat, block: seq<T>, x: T)
    requires o + |block| <= |w| && w[o..o + |block|] == block && x in block
    ensures x in w
  {
    var i :| 0 <= i < |block| && block[i] == x;
    assert w[o + i] == x;
  }

  /** A regular file listed in a step of the walk is collected, with its own name as `filename`. */
  lemma StepFileCollected(walk: seq<WalkStep>, root: string, dir: seq<Node>, k: nat)
    requires ValidTree(dir) && WalkStep(root, DirNames(dir), FileEntries(dir)) in walk
    requires k < |dir| && dir[k].File? && dir[k].regular
    ensures WorkspaceFile(Join(root, dir[k].name), dir[k].name) in FilesOf(walk)
  {
    var files := FileEntries(dir);
    assert FileEntry(dir[k].name, true) in files;
    forall j | 0 <= j < |files|
      ensures IsEntryName(files[j].name)
    {
      FileEntryNames(dir, files[j]);
    }
    var j :| 0 <= j < |files| && files[j] == FileEntry(dir[k].name, true);
    StepFilesComplete(root, files, j);
    FilesOfMembers(walk, WorkspaceFile(Join(root, dir[k].name), dir[k].name));
  }

  /**
   * Every regular file anywhere below the workspace directory is collected:
   * a file listed in the folder that `path` leads to is recorded under the
   * folder names joined onto the directory, then its own name.
   */
  lemma NestedFileCollected(directory: string, entries: seq<Node>, path: seq<nat>, k: nat)
    requires ValidTree(entries) && IsFolderPath(entries, path)
    requires var dir := DirAt(directory, entries, path).1; k < |dir| && dir[k].File? && dir[k].regular
    ensures var (root, dir) := DirAt(directory, entries, path);
            WorkspaceFile(Join(root, dir[k].name), dir[k].name) in WalkedFiles(directory, Some(entries))
  {
    StepInWalk(directory, entries, path);
    DirAtValid(directory, entries, path);
    var (root, dir) := DirAt(directory, entries, path);
    StepFileCollected(Walk(directory, entries), root, dir, k);
  }

  /** The walk yields one step per directory: the workspace directory and each folder below it. */
  function FolderCount(entries: seq<Node>): nat
    decreases entries
  {
    if entries == [] then 0
    else
      (match entries[0]
       case File(_, _) => 0
       case Folder(_, sub) => 1 + FolderCount(sub))
      + FolderCount(entries[1..])
  }

  /**
   * Top-down order: the first step is the workspace directory itself, and
   * every later step is a directory below it, whose path extends the
   * workspace directory's.
   */
  lemma {:induction false} WalkTopDown(top: string, entries: seq<Node>)
    requires ValidTree(entries)
    ensures |Walk(top, entries)| == 1 + FolderCount(entries)
    ensures Walk(top, entries)[0].root == top
    ensures forall i :: 0 <= i < |Walk(top, entries)| ==> StartsWith(Walk(top, entries)[i].root, top)
    decreases entries, 1
  {
    SubdirsTopDown(top, entries);
  }

  lemma {:induction false} SubdirsTopDown(top: string, entries: seq<Node>)
    requires ValidTree(entries)
    ensures |WalkSubdirs(top, entries)| == FolderCount(entries)
    ensures forall i :: 0 <= i < |WalkSubdirs(top, entries)| ==> StartsWith(WalkSubdirs(top, entries)[i].root, top)
    decreases entries, 0
  {
    if entries != [] {
      assert ValidTree(entries[1..]) by {
        assert forall i :: 0 <= i < |entries[1..]| ==> entries[1..][i] == entries[i + 1];
      }
      SubdirsTopDown(top, entries[1..]);
      var rest := WalkSubdirs(top, entries[1..]);
      match entries[0]
      case File(_, _) =>
        assert WalkSubdirs(top, entries) == rest;
      case Folder(n, sub) =>
        var child := Join(top, n);
        WalkTopDown(child, sub);
        JoinExtends(top, n);
        var head := Walk(child, sub);
        assert WalkSubdirs(top, entries) == head + rest;
        forall i | 0 <= i < |head|
          ensures StartsWith(head[i].root, top)
        {
          StartsWithTrans(head[i].root, child, top);
        }
    }
  }

  lemma JoinExtends(a: string, b: string)
    requires IsEntryName(b)
    ensures StartsWith(Join(a, b), a)
  {
    if a == [] || a[|a| - 1] == '/' {
      assert (a + b)[..|a|] == a;
    } else {
      assert (a + "/" + b)[..|a|] == a;
    }
  }

  lemma StartsWithTrans(s: string, t: string, u: string)
    requires StartsWith(s, t) && StartsWith(t, u)
    ensures StartsWith(s, u)
  {
    assert s[..|u|] == s[..|t|][..|u|];
  }
}
