/**
 * The two tree scans of the build helper: the Python sources to compile
 * (`_find_py_files`) and the native binaries already present (`_find_binary_files`).
 *
 * The file system is abstract. A walk is the sequence of directories `os.walk`
 * visits, each with its path relative to the source root and the names of the
 * files directly in it; `dirs` holds the exclusion strings that name existing
 * directories under the root; `glob` gives, for one of the fixed patterns, the
 * relative paths of its recursive matches in the order glob returns them.
 */
module SourceFilter {

  import opened PathText

  /** One directory visited by `os.walk`: its path relative to the root ("." for the root itself) and its files. */
  datatype WalkEntry = WalkEntry(relRoot: string, files: seq<string>)

  /** `os.path.relpath(os.path.join(root, file), source_dir)` for a file in walk directory `relRoot`. */
  function RelPathOf(relRoot: string, name: string): string
  {
    if relRoot == "." then name else relRoot + [Sep] + name
  }

  /**
   * A walk directory is skipped when some exclusion that names an existing
   * directory is a plain string prefix of (or equal to) its relative path.
   */
  predicate DirPruned(relRoot: string, excludes: seq<string>, dirs: set<string>)
  {
    exists ex :: ex in excludes && ex in dirs && (StartsWith(relRoot, ex) || relRoot == ex)
  }

  /**
   * A file is dropped when its relative path equals an exclusion or lies under
   * it (exclusion followed by the separator), whether or not the exclusion is a
   * directory.
   */
  predicate FileExcluded(relPath: string, excludes: seq<string>)
  {
    exists ex :: ex in excludes && (relPath == ex || StartsWith(relPath, ex + [Sep]))
  }

  /** The file `name` of walk directory `relRoot` is one of the sources to compile. */
  predicate Selected(relRoot: string, name: string, excludes: seq<string>, dirs: set<string>)
  {
    && EndsWith(name, PySuffix)
    && !DirPruned(relRoot, excludes, dirs)
    && !FileExcluded(RelPathOf(relRoot, name), excludes)
  }

  /** The `.py` files of one walk directory that no exclusion removes, in order. */
  function KeptFiles(relRoot: string, files: seq<string>, excludes: seq<string>): seq<string>
  {
    if files == [] then []
    else
      var name := files[|files| - 1];
      var kept := KeptFiles(relRoot, files[..|files| - 1], excludes);
      if EndsWith(name, PySuffix) && !FileExcluded(RelPathOf(relRoot, name), excludes)
      then kept + [RelPathOf(relRoot, name)]
      else kept
  }

  /** What `_find_py_files` returns, as relative paths, in walk order. */
  function PyFiles(walk: seq<WalkEntry>, excludes: seq<string>, dirs: set<string>): seq<string>
  {
    if walk == [] then []
    else
      var e := walk[|walk| - 1];
      PyFiles(walk[..|walk| - 1], excludes, dirs)
        + (if DirPruned(e.relRoot, excludes, dirs) then [] else KeptFiles(e.relRoot, e.files, excludes))
  }

  lemma {:induction false} PyFilesStep(walk: seq<WalkEntry>, excludes: seq<string>, dirs: set<string>, i: int)
    requires 0 <= i < |walk|
    ensures PyFiles(walk[..i + 1], excludes, dirs)
         == PyFiles(walk[..i], excludes, dirs)
            + (if DirPruned(walk[i].relRoot, excludes, dirs) then [] else KeptFiles(walk[i].relRoot, walk[i].files, excludes))
  {
    assert walk[..i + 1][..i] == walk[..i];
  }

  lemma {:induction false} KeptFilesStep(relRoot: string, files: seq<string>, excludes: seq<string>, j: int)
    requires 0 <= j < |files|
    ensures KeptFiles(relRoot, files[..j + 1], excludes)
         == KeptFiles(relRoot, files[..j], excludes)
            + (if EndsWith(files[j], PySuffix) && !FileExcluded(RelPathOf(relRoot, files[j]), excludes)
               then [RelPathOf(relRoot, files[j])] else [])
  {
    assert files[..j + 1][..j] == files[..j];
  }

  /** The `for file in files` loop of `_find_py_files`, for a walk directory that is not pruned. */
  method KeepPyFiles(relRoot: string, files: seq<string>, excludes: seq<string>) returns (kept: seq<string>)
    ensures kept == KeptFiles(relRoot, files, excludes)
  {
    kept := [];
    for j := 0 to |files|
      invariant kept == KeptFiles(relRoot, files[..j], excludes)
    {
      var file := files[j];
      KeptFilesStep(relRoot, files, excludes, j);
      if EndsWith(file, PySuffix) {
        var relPath := RelPathOf(relRoot, file);
        if !FileExcluded(relPath, excludes) {
          kept := kept + [relPath];
        }
      }
    }
    assert files[..|files|] == files;
  }

  /** `_find_py_files(source_dir, exclude_files)`. */
  method FindPyFiles(walk: seq<WalkEntry>, excludes: seq<string>, dirs: set<string>)
    returns (pyFiles: seq<string>)
    ensures pyFiles == PyFiles(walk, excludes, dirs)
  {
    pyFiles := [];
    for i := 0 to |walk|
      invariant pyFiles == PyFiles(walk[..i], excludes, dirs)
    {
      var entry := walk[i];
      PyFilesStep(walk, excludes, dirs, i);
      if !DirPruned(entry.relRoot, excludes, dirs) {
        var kept := KeepPyFiles(entry.relRoot, entry.files, excludes);
        pyFiles := pyFiles + kept;
      } else {
        assert pyFiles + [] == pyFiles;
      }
    }
    assert walk[..|walk|] == walk;
  }

  /** File `j` of walk directory `i` is selected and has relative path `p`. */
  ghost predicate SelectedAt(walk: seq<WalkEntry>, i: int, j: int, p: string, excludes: seq<string>, dirs: set<string>)
  {
    && 0 <= i < |walk| && 0 <= j < |walk[i].files|
    && p == RelPathOf(walk[i].relRoot, walk[i].files[j])
    && Selected(walk[i].relRoot, walk[i].files[j], excludes, dirs)
  }

  /** File `j` of `files` in walk directory `relRoot` is a kept `.py` file with relative path `p`. */
  ghost predicate KeptAt(relRoot: string, files: seq<string>, j: int, excludes: seq<string>, p: string)
  {
    && 0 <= j < |files| && p == RelPathOf(relRoot, files[j])
    && EndsWith(files[j], PySuffix) && !FileExcluded(RelPathOf(relRoot, files[j]), excludes)
  }

  lemma {:induction false} KeptFilesSound(relRoot: string, files: seq<string>, excludes: seq<string>, p: string)
    requires p in KeptFiles(relRoot, files, excludes)
    ensures exists j :: KeptAt(relRoot, files, j, excludes, p)
  {
    var n := |files| - 1;
    var init := files[..n];
    if p in KeptFiles(relRoot, init, excludes) {
      KeptFilesSound(relRoot, init, excludes, p);
      var j :| KeptAt(relRoot, init, j, excludes, p);
      assert init[j] == files[j];
      assert KeptAt(relRoot, files, j, excludes, p);
    } else {
      assert KeptAt(relRoot, files, n, excludes, p);
    }
  }

  lemma {:induction false} KeptFilesComplete(relRoot: string, files: seq<string>, excludes: seq<string>, j: int, p: string)
    requires KeptAt(relRoot, files, j, excludes, p)
    ensures p in KeptFiles(relRoot, files, excludes)
  {
    var n := |files| - 1;
    var init := files[..n];
    if j < n {
      assert init[j] == files[j];
      KeptFilesComplete(relRoot, init, excludes, j, p);
    }
  }

  /** A path is kept from one walk directory exactly when it is the path of one of its `.py` files that no exclusion removes. */
  lemma {:induction false} KeptFilesMembership(relRoot: string, files: seq<string>, excludes: seq<string>, p: string)
    ensures p in KeptFiles(relRoot, files, excludes) <==> exists j :: KeptAt(relRoot, files, j, excludes, p)
  {
    if p in KeptFiles(relRoot, files, excludes) {
      KeptFilesSound(relRoot, files, excludes, p);
    }
    if exists j :: KeptAt(relRoot, files, j, excludes, p) {
      var j :| KeptAt(relRoot, files, j, excludes, p);
      KeptFilesComplete(relRoot, files, excludes, j, p);
    }
  }

  lemma {:induction false} PyFilesSound(walk: seq<WalkEntry>, excludes: seq<string>, dirs: set<string>, p: string)
    requires p in PyFiles(walk, excludes, dirs)
    ensures exists i, j :: SelectedAt(walk, i, j, p, excludes, dirs)
  {
    var n := |walk| - 1;
    var init := walk[..n];
    var e := walk[n];
    if p in PyFiles(init, excludes, dirs) {
      PyFilesSound(init, excludes, dirs, p);
      var i, j :| SelectedAt(init, i, j, p, excludes, dirs);
      assert init[i] == walk[i];
      assert SelectedAt(walk, i, j, p, excludes, dirs);
    } else {
      assert !DirPruned(e.relRoot, excludes, dirs);
      KeptFilesSound(e.relRoot, e.files, excludes, p);
      var j :| KeptAt(e.relRoot, e.files, j, excludes, p);
      assert SelectedAt(walk, n, j, p, excludes, dirs);
    }
  }

  lemma {:induction false} PyFilesComplete(walk: seq<WalkEntry>, excludes: seq<string>, dirs: set<string>, i: int, j: int, p: string)
    requires SelectedAt(walk, i, j, p, excludes, dirs)
    ensures p in PyFiles(walk, excludes, dirs)
  {
    var n := |walk| - 1;
    var init := walk[..n];
    var e := walk[n];
    var last := if DirPruned(e.relRoot, excludes, dirs) then [] else KeptFiles(e.relRoot, e.files, excludes);
    assert PyFiles(walk, excludes, dirs) == PyFiles(init, excludes, dirs) + last;
    if i < n {
      assert init[i] == walk[i];
      assert SelectedAt(init, i, j, p, excludes, dirs);
      PyFilesComplete(init, excludes, dirs, i, j, p);
    } else {
      assert KeptAt(e.relRoot, e.files, j, excludes, p);
      KeptFilesComplete(e.relRoot, e.files, excludes, j, p);
    }
  }

  /**
   * A path is returned exactly when some walk directory holds a file with that
   * relative path which ends in ".py", whose directory is not pruned and which
   * no exclusion removes.
   */
  lemma {:induction false} PyFilesMembership(walk: seq<WalkEntry>, excludes: seq<string>, dirs: set<string>, p: string)
    ensures p in PyFiles(walk, excludes, dirs) <==> exists i, j :: SelectedAt(walk, i, j, p, excludes, dirs)
  {
    if p in PyFiles(walk, excludes, dirs) {
      PyFilesSound(walk, excludes, dirs, p);
    }
    if exists i, j :: SelectedAt(walk, i, j, p, excludes, dirs) {
      var i, j :| SelectedAt(walk, i, j, p, excludes, dirs);
      PyFilesComplete(walk, excludes, dirs, i, j, p);
    }
  }

  lemma {:induction false} RelPathOfEndsWith(relRoot: string, name: string, suffix: string)
    requires EndsWith(name, suffix)
    ensures EndsWith(RelPathOf(relRoot, name), suffix)
  {
    var r := RelPathOf(relRoot, name);
    assert r[|r| - |name|..] == name;
    assert r[|r| - |suffix|..] == name[|name| - |suffix|..];
  }

  /**
   * Every returned path ends in ".py", and no exclusion equals it or is a
   * directory prefix of it.
   */
  lemma {:induction false} PyFilesAreUnexcludedSources(walk: seq<WalkEntry>, excludes: seq<string>, dirs: set<string>)
    ensures forall p :: p in PyFiles(walk, excludes, dirs) ==> EndsWith(p, PySuffix) && !FileExcluded(p, excludes)
  {
    forall p | p in PyFiles(walk, excludes, dirs)
      ensures EndsWith(p, PySuffix) && !FileExcluded(p, excludes)
    {
      PyFilesMembership(walk, excludes, dirs, p);
      var i, j :| SelectedAt(walk, i, j, p, excludes, dirs);
      RelPathOfEndsWith(walk[i].relRoot, walk[i].files[j], PySuffix);
    }
  }

  /**
   * No returned path comes from a walk directory below an exclusion that names
   * an existing directory, where "below" is a plain string prefix.
   */
  lemma {:induction false} PrunedDirectoriesContributeNothing(walk: seq<WalkEntry>, excludes: seq<string>, dirs: set<string>, p: string)
    requires p in PyFiles(walk, excludes, dirs)
    ensures exists i, j :: SelectedAt(walk, i, j, p, excludes, dirs)
              && forall ex :: ex in excludes && ex in dirs ==> !StartsWith(walk[i].relRoot, ex)
  {
    PyFilesMembership(walk, excludes, dirs, p);
  }

  /** Directory pruning is a plain prefix test: exclusion "skip" also prunes "skipper". */
  lemma {:induction false} DirectoryPruningIsPlainPrefix()
    ensures PyFiles([WalkEntry("skipper", ["x.py"])], ["skip"], {"skip"}) == []
  {
    assert DirPruned("skipper", ["skip"], {"skip"}) by {
      assert "skip" <= "skipper";
    }
  }

  /**
   * An exclusion that does not name a directory removes files only by equality
   * or separator prefix: "skip" then leaves "skipper/x.py" in place.
   */
  lemma {:induction false} FileExclusionNeedsSeparator()
    ensures PyFiles([WalkEntry("skipper", ["x.py"])], ["skip"], {}) == ["skipper/x.py"]
  {
    assert !FileExcluded("skipper/x.py", ["skip"]) by {
      assert !("skip/" <= "skipper/x.py") by { assert "skipper/x.py"[4] != '/'; }
    }
    assert !DirPruned("skipper", ["skip"], {});
    assert EndsWith("x.py", PySuffix);
    assert RelPathOf("skipper", "x.py") == "skipper/x.py";
    assert KeptFiles("skipper", ["x.py"], ["skip"]) == ["skipper/x.py"] by {
      assert ["x.py"][..0] == [];
    }
    var w: seq<WalkEntry> := [WalkEntry("skipper", ["x.py"])];
    assert w[..0] == [];
  }

  /** A file exclusion removes the file it names exactly: excluding "skip.py" keeps only "a.py". */
  lemma {:induction false} FileExclusionByEquality()
    ensures PyFiles([WalkEntry(".", ["skip.py", "a.py"])], ["skip.py"], {}) == ["a.py"]
  {
    var files := ["skip.py", "a.py"];
    assert !DirPruned(".", ["skip.py"], {});
    assert EndsWith("a.py", PySuffix) && EndsWith("skip.py", PySuffix);
    assert !FileExcluded("a.py", ["skip.py"]) by {
      assert !("skip.py/" <= "a.py");
    }
    assert FileExcluded("skip.py", ["skip.py"]) by {
      assert "skip.py" in ["skip.py"];
    }
    assert files[..1] == ["skip.py"] && files[..1][..0] == [];
    assert KeptFiles(".", files, ["skip.py"]) == ["a.py"];
    var v: seq<WalkEntry> := [WalkEntry(".", files)];
    assert v[..0] == [];
  }

  /**
   * A root-level file whose name merely starts with a directory exclusion is
   * kept: with directory "skip" excluded, "skip.py" is still compiled.
   */
  lemma {:induction false} DirectoryExclusionSparesRootNamesalike()
    ensures PyFiles([WalkEntry(".", ["skip.py"])], ["skip"], {"skip"}) == ["skip.py"]
  {
    assert !DirPruned(".", ["skip"], {"skip"});
    assert !FileExcluded("skip.py", ["skip"]) by {
      assert !("skip/" <= "skip.py") by { assert "skip.py"[4] != '/'; }
    }
  }

  /* ---------------------------------------------------------------------- */
  /* _find_binary_files                                                      */

  /** The glob patterns searched, in this order. */
  const BinaryPatterns: seq<string> := ["*.pyd", "*.so", "*.dylib"]

  /**
   * One binary to attach: the match `rel` found under `sourceDir`. The pair the
   * build helper returns for it is (`Source()`, `DestDir()`).
   */
  datatype BinaryRef = BinaryRef(sourceDir: string, rel: string)
  {
    /** The match joined onto the source directory. */
    function Source(): string
    {
      Join(sourceDir, rel)
    }

    /** The directory holding the match, relative to the root, and "." for the root itself. */
    function DestDir(): string
    {
      var d := DirName(rel);
      if d == "" then "." else d
    }
  }

  /** A binary match is dropped when its normalised path starts with some normalised exclusion. */
  predicate BinaryExcluded(rel: string, excludes: seq<string>, normpath: string -> string)
  {
    exists ex :: ex in excludes && StartsWith(normpath(rel), normpath(ex))
  }

  /** The kept matches of one pattern, in glob order. */
  function KeptBinaries(sourceDir: string, matches: seq<string>, excludes: seq<string>, normpath: string -> string): seq<BinaryRef>
  {
    if matches == [] then []
    else
      var rel := matches[|matches| - 1];
      KeptBinaries(sourceDir, matches[..|matches| - 1], excludes, normpath)
        + (if BinaryExcluded(rel, excludes, normpath) then [] else [BinaryRef(sourceDir, rel)])
  }

  /** The kept matches of every pattern, pattern by pattern: what `_find_binary_files` returns. */
  function Binaries(sourceDir: string, glob: string -> seq<string>, patterns: seq<string>,
                    excludes: seq<string>, normpath: string -> string): seq<BinaryRef>
  {
    if patterns == [] then []
    else
      Binaries(sourceDir, glob, patterns[..|patterns| - 1], excludes, normpath)
        + KeptBinaries(sourceDir, glob(patterns[|patterns| - 1]), excludes, normpath)
  }

  lemma {:induction false} KeptBinariesStep(sourceDir: string, matches: seq<string>, excludes: seq<string>, normpath: string -> string, j: int)
    requires 0 <= j < |matches|
    ensures KeptBinaries(sourceDir, matches[..j + 1], excludes, normpath)
         == KeptBinaries(sourceDir, matches[..j], excludes, normpath)
            + (if BinaryExcluded(matches[j], excludes, normpath) then [] else [BinaryRef(sourceDir, matches[j])])
  {
    assert matches[..j + 1][..j] == matches[..j];
  }

  lemma {:induction false} BinariesStep(sourceDir: string, glob: string -> seq<string>, patterns: seq<string>,
                                        excludes: seq<string>, normpath: string -> string, k: int)
    requires 0 <= k < |patterns|
    ensures Binaries(sourceDir, glob, patterns[..k + 1], excludes, normpath)
         == Binaries(sourceDir, glob, patterns[..k], excludes, normpath) + KeptBinaries(sourceDir, glob(patterns[k]), excludes, normpath)
  {
    assert patterns[..k + 1][..k] == patterns[..k];
  }

  /** The `for filepath in glob.glob(...)` loop of `_find_binary_files`, for one pattern's matches. */
  method KeepBinaries(sourceDir: string, matches: seq<string>, excludes: seq<string>, normpath: string -> string)
    returns (kept: seq<BinaryRef>)
    ensures kept == KeptBinaries(sourceDir, matches, excludes, normpath)
  {
    kept := [];
    for j := 0 to |matches|
      invariant kept == KeptBinaries(sourceDir, matches[..j], excludes, normpath)
    {
      var relPath := matches[j];
      KeptBinariesStep(sourceDir, matches, excludes, normpath, j);
      if !BinaryExcluded(relPath, excludes, normpath) {
        kept := kept + [BinaryRef(sourceDir, relPath)];
      }
    }
    assert matches[..|matches|] == matches;
  }

  /** `_find_binary_files(source_dir, exclude_files)`. */
  method FindBinaryFiles(sourceDir: string, glob: string -> seq<string>, excludes: seq<string>, normpath: string -> string)
    returns (results: seq<BinaryRef>)
    ensures results == Binaries(sourceDir, glob, BinaryPatterns, excludes, normpath)
  {
    var patterns := BinaryPatterns;
    results := [];
    for k := 0 to |patterns|
      invariant results == Binaries(sourceDir, glob, patterns[..k], excludes, normpath)
    {
      BinariesStep(sourceDir, glob, patterns, excludes, normpath, k);
      var kept := KeepBinaries(sourceDir, glob(patterns[k]), excludes, normpath);
      results := results + kept;
    }
    assert patterns[..|patterns|] == patterns;
  }

  /** Match `j` of `matches` exists and is kept. */
  ghost predicate KeptMatchAt(matches: seq<string>, j: int, excludes: seq<string>, normpath: string -> string)
  {
    0 <= j < |matches| && !BinaryExcluded(matches[j], excludes, normpath)
  }

  /** Match `j` of pattern `k` exists, is kept, and is `rel`. */
  ghost predicate BinaryMatchAt(glob: string -> seq<string>, patterns: seq<string>, k: int, j: int,
                                excludes: seq<string>, normpath: string -> string, rel: string)
  {
    0 <= k < |patterns| && KeptMatchAt(glob(patterns[k]), j, excludes, normpath) && glob(patterns[k])[j] == rel
  }

  lemma {:induction false} KeptBinariesSound(sourceDir: string, matches: seq<string>, excludes: seq<string>,
                                             normpath: string -> string, b: BinaryRef)
    requires b in KeptBinaries(sourceDir, matches, excludes, normpath)
    ensures b.sourceDir == sourceDir
    ensures exists j :: KeptMatchAt(matches, j, excludes, normpath) && matches[j] == b.rel
  {
    var n := |matches| - 1;
    var init := matches[..n];
    if b in KeptBinaries(sourceDir, init, excludes, normpath) {
      KeptBinariesSound(sourceDir, init, excludes, normpath, b);
      var j :| KeptMatchAt(init, j, excludes, normpath) && init[j] == b.rel;
      assert init[j] == matches[j];
      assert KeptMatchAt(matches, j, excludes, normpath);
    } else {
      assert KeptMatchAt(matches, n, excludes, normpath) && matches[n] == b.rel;
    }
  }

  lemma {:induction false} KeptBinariesComplete(sourceDir: string, matches: seq<string>, excludes: seq<string>,
                                                normpath: string -> string, j: int)
    requires KeptMatchAt(matches, j, excludes, normpath)
    ensures BinaryRef(sourceDir, matches[j]) in KeptBinaries(sourceDir, matches, excludes, normpath)
  {
    var n := |matches| - 1;
    var init := matches[..n];
    if j < n {
      assert init[j] == matches[j];
      KeptBinariesComplete(sourceDir, init, excludes, normpath, j);
    }
  }

  /** A match of one pattern is returned exactly when no exclusion drops it. */
  lemma {:induction false} KeptBinariesMembership(sourceDir: string, matches: seq<string>, excludes: seq<string>,
                               normpath: string -> string, b: BinaryRef)
    ensures b in KeptBinaries(sourceDir, matches, excludes, normpath) <==>
      b.sourceDir == sourceDir && exists j :: KeptMatchAt(matches, j, excludes, normpath) && matches[j] == b.rel
  {
    if b in KeptBinaries(sourceDir, matches, excludes, normpath) {
      KeptBinariesSound(sourceDir, matches, excludes, normpath, b);
    }
    if b.sourceDir == sourceDir && exists j :: KeptMatchAt(matches, j, excludes, normpath) && matches[j] == b.rel {
      var j :| KeptMatchAt(matches, j, excludes, normpath) && matches[j] == b.rel;
      KeptBinariesComplete(sourceDir, matches, excludes, normpath, j);
    }
  }

  lemma {:induction false} BinariesSound(sourceDir: string, glob: string -> seq<string>, patterns: seq<string>,
                                         excludes: seq<string>, normpath: string -> string, b: BinaryRef)
    requires b in Binaries(sourceDir, glob, patterns, excludes, normpath)
    ensures b.sourceDir == sourceDir
    ensures exists k, j :: BinaryMatchAt(glob, patterns, k, j, excludes, normpath, b.rel)
  {
    var n := |patterns| - 1;
    var init := patterns[..n];
    if b in Binaries(sourceDir, glob, init, excludes, normpath) {
      BinariesSound(sourceDir, glob, init, excludes, normpath, b);
      var k, j :| BinaryMatchAt(glob, init, k, j, excludes, normpath, b.rel);
      assert init[k] == patterns[k];
      assert BinaryMatchAt(glob, patterns, k, j, excludes, normpath, b.rel);
    } else {
      KeptBinariesSound(sourceDir, glob(patterns[n]), excludes, normpath, b);
      var j :| KeptMatchAt(glob(patterns[n]), j, excludes, normpath) && glob(patterns[n])[j] == b.rel;
      assert BinaryMatchAt(glob, patterns, n, j, excludes, normpath, b.rel);
    }
  }

  lemma {:induction false} BinariesComplete(sourceDir: string, glob: string -> seq<string>, patterns: seq<string>,
                                            excludes: seq<string>, normpath: string -> string, k: int, j: int, rel: string)
    requires BinaryMatchAt(glob, patterns, k, j, excludes, normpath, rel)
    ensures BinaryRef(sourceDir, rel) in Binaries(sourceDir, glob, patterns, excludes, normpath)
  {
    var n := |patterns| - 1;
    var init := patterns[..n];
    if k < n {
      assert init[k] == patterns[k];
      BinariesComplete(sourceDir, glob, init, excludes, normpath, k, j, rel);
    } else {
      KeptBinariesComplete(sourceDir, glob(patterns[n]), excludes, normpath, j);
    }
  }

  /**
   * A binary is returned exactly when some pattern has a match that no
   * exclusion prefixes (after normalisation); it is recorded under the
   * source directory searched.
   */
  lemma {:induction false} BinariesMembership(sourceDir: string, glob: string -> seq<string>, patterns: seq<string>,
                           excludes: seq<string>, normpath: string -> string, b: BinaryRef)
    ensures b in Binaries(sourceDir, glob, patterns, excludes, normpath) <==>
      b.sourceDir == sourceDir && exists k, j :: BinaryMatchAt(glob, patterns, k, j, excludes, normpath, b.rel)
  {
    if b in Binaries(sourceDir, glob, patterns, excludes, normpath) {
      BinariesSound(sourceDir, glob, patterns, excludes, normpath, b);
    }
    if b.sourceDir == sourceDir && exists k, j :: BinaryMatchAt(glob, patterns, k, j, excludes, normpath, b.rel) {
      var k, j :| BinaryMatchAt(glob, patterns, k, j, excludes, normpath, b.rel);
      BinariesComplete(sourceDir, glob, patterns, excludes, normpath, k, j, b.rel);
    }
  }

  /**
   * The destination directory recorded for a match: "." for a match at the
   * root, and otherwise the part before its last separator, so that joining it
   * back with the file name gives the match again.
   */
  lemma {:induction false} BinaryDestDirSplitsMatch(sourceDir: string, rel: string)
    ensures Sep !in rel ==> BinaryRef(sourceDir, rel).DestDir() == "." && BaseName(rel) == rel
    ensures var k := LastIndexOf(rel, Sep);
            k > 0 && rel[k - 1] != Sep ==> BinaryRef(sourceDir, rel).DestDir() + [Sep] + BaseName(rel) == rel
  {
    var k := LastIndexOf(rel, Sep);
    if Sep !in rel {
      assert k == -1;
    } else if k > 0 && rel[k - 1] != Sep {
      DirNameBeforeLastSep(rel, k);
      assert rel[..k] + [Sep] + rel[k + 1..] == rel;
    }
  }

  /** Binary exclusion is a plain prefix test: exclusion "lib" drops the match "libs/x.so". */
  lemma {:induction false} BinaryExclusionIsPlainPrefix(sourceDir: string)
    ensures Binaries(sourceDir, (pattern: string) => if pattern == "*.so" then ["libs/x.so"] else [],
                     BinaryPatterns, ["lib"], (p: string) => p) == []
  {
    var glob := (pattern: string) => if pattern == "*.so" then ["libs/x.so"] else [];
    var id := (p: string) => p;
    assert "lib" <= "libs/x.so";
    assert StartsWith(id("libs/x.so"), id("lib"));
    assert BinaryExcluded("libs/x.so", ["lib"], id);
    assert KeptBinaries(sourceDir, ["libs/x.so"], ["lib"], id) == [] by {
      assert ["libs/x.so"][..0] == [];
    }
    assert glob("*.pyd") == [] && glob("*.so") == ["libs/x.so"] && glob("*.dylib") == [];
    var ps := BinaryPatterns;
    assert ps[..3] == ps && ps[..3][..2] == ps[..2] && ps[..2][..1] == ps[..1] && ps[..1][..0] == [];
    assert Binaries(sourceDir, glob, ps[..1], ["lib"], id) == [];
    assert Binaries(sourceDir, glob, ps[..2], ["lib"], id) == [];
  }
}
