/**
 * The target derivation of `compile`: the sources found by the scan, minus the
 * entry file, each turned into one extension module named after its path.
 */
module CompileStage {

  import opened Wrappers
  import opened PathText
  import opened SourceFilter

  /** `setuptools.Extension(name, sources)`. */
  datatype Extension = Extension(name: string, sources: seq<string>)

  /** `rel_path.replace(".py", "").replace(os.sep, ".")`. */
  function ModuleName(relPath: string): string
  {
    SepToDot(ReplaceAll(relPath, PySuffix, ""))
  }

  /**
   * For a path whose only ".py" is its extension, the module name is the path
   * without the extension, with every separator turned into a dot.
   */
  lemma {:induction false} ModuleNameOfSource(q: string)
    requires !Occurs(q, PySuffix)
    ensures |ModuleName(q + PySuffix)| == |q|
    ensures forall i :: 0 <= i < |q| ==> ModuleName(q + PySuffix)[i] == if q[i] == Sep then '.' else q[i]
  {
    DeletePySuffix(q);
    SepToDotAt(q);
  }

  /**
   * Every ".py" is deleted, not only the extension: a ".py" inside a directory
   * name vanishes too, so "a.pyb/c.py" becomes module "ab.c".
   */
  lemma {:induction false} ModuleNameDeletesEveryPy(q: string, t: string)
    requires !Occurs(q, PySuffix) && !Occurs(t, PySuffix)
    ensures ModuleName(q + PySuffix + t + PySuffix) == SepToDot(q + t)
    ensures |ModuleName(q + PySuffix + t + PySuffix)| == |q| + |t|
  {
    DeletePySuffix(t);
    DeletePyAfter(q, t + PySuffix);
    assert q + PySuffix + t + PySuffix == q + PySuffix + (t + PySuffix);
    SepToDotAt(q + t);
  }

  /** `list.remove(x)`: the first occurrence of `x` taken out; no change when `x` is absent. */
  function RemoveFirst(s: seq<string>, x: string): (r: seq<string>)
    ensures x !in s ==> r == s
  {
    if s == [] then []
    else if s[0] == x then s[1..]
    else [s[0]] + RemoveFirst(s[1..], x)
  }

  /** `r` is `s` with its first `x`, at index `i`, taken out. */
  ghost predicate RemovedAt(s: seq<string>, x: string, i: int, r: seq<string>)
  {
    0 <= i < |s| && s[i] == x && x !in s[..i] && r == s[..i] + s[i + 1..]
  }

  /** A removal in the tail of `s`, behind a head that is not `x`, is a removal in `s` one place further on. */
  lemma {:induction false} RemovedAtBehind(s: seq<string>, x: string, i: int, rt: seq<string>)
    requires s != [] && s[0] != x && RemovedAt(s[1..], x, i, rt)
    ensures RemovedAt(s, x, i + 1, [s[0]] + rt)
  {
    var t := s[1..];
    assert s[..i + 1] == [s[0]] + t[..i];
    assert s[i + 2..] == t[i + 1..];
  }

  /** Removal takes out exactly the first occurrence and keeps the order of everything else. */
  lemma {:induction false} RemoveFirstAt(s: seq<string>, x: string)
    requires x in s
    ensures exists i :: RemovedAt(s, x, i, RemoveFirst(s, x))
  {
    if s[0] == x {
      assert s[..0] + s[1..] == s[1..];
      assert RemovedAt(s, x, 0, RemoveFirst(s, x));
    } else {
      var t := s[1..];
      assert x in t;
      RemoveFirstAt(t, x);
      var i :| RemovedAt(t, x, i, RemoveFirst(t, x));
      RemovedAtBehind(s, x, i, RemoveFirst(t, x));
      assert RemoveFirst(s, x) == [s[0]] + RemoveFirst(t, x);
    }
  }

  lemma {:induction false} RemoveFirstMultiset(s: seq<string>, x: string)
    ensures multiset(RemoveFirst(s, x)) == multiset(s) - multiset{x}
  {
    if s != [] {
      assert s == [s[0]] + s[1..];
      if s[0] != x {
        RemoveFirstMultiset(s[1..], x);
      }
    }
  }

  /** `x` occurs at most once in `s`. */
  predicate AtMostOnce(s: seq<string>, x: string)
  {
    forall i, j :: 0 <= i < j < |s| && s[i] == x ==> s[j] != x
  }

  /** When `x` occurs at most once, none is left after removing it. */
  lemma {:induction false} RemoveFirstOfUnique(s: seq<string>, x: string)
    requires AtMostOnce(s, x)
    ensures x !in RemoveFirst(s, x)
  {
    if x in s {
      RemoveFirstAt(s, x);
      var i :| RemovedAt(s, x, i, RemoveFirst(s, x));
      assert x !in s[i + 1..];
    }
  }

  /** The entry file that compile skips: `if main_file:` treats None and "" alike. */
  function EntryOf(mainFile: Option<string>): Option<string>
  {
    if mainFile.Some? && mainFile.value != "" then mainFile else None
  }

  /** Lines 184-187: the scanned files without the entry file. */
  function WithoutEntry(pyFiles: seq<string>, mainFile: Option<string>): seq<string>
  {
    match EntryOf(mainFile)
    case None => pyFiles
    case Some(main) => RemoveFirst(pyFiles, main)
  }

  /** Lines 190-194: one extension per file, in order. */
  function Targets(files: seq<string>): seq<Extension>
  {
    if files == [] then []
    else Targets(files[..|files| - 1]) + [Extension(ModuleName(files[|files| - 1]), [files[|files| - 1]])]
  }

  /** Exactly one target per file, in the files' order, named after the file's path. */
  lemma {:induction false} TargetsOnePerFile(files: seq<string>)
    ensures |Targets(files)| == |files|
    ensures forall k :: 0 <= k < |files| ==> Targets(files)[k] == Extension(ModuleName(files[k]), [files[k]])
  {
    if files != [] {
      var n := |files| - 1;
      TargetsOnePerFile(files[..n]);
      forall k | 0 <= k < n ensures files[..n][k] == files[k] { }
    }
  }

  /** The extension modules `compile` hands to cythonize. */
  function CompileTargets(walk: seq<WalkEntry>, excludes: seq<string>, dirs: set<string>, mainFile: Option<string>): seq<Extension>
  {
    Targets(WithoutEntry(PyFiles(walk, excludes, dirs), mainFile))
  }

  /** Lines 181-194 of `compile`: scan, drop the entry file, build the extension list. */
  method Compile(walk: seq<WalkEntry>, excludes: seq<string>, dirs: set<string>, mainFile: Option<string>)
    returns (extModules: seq<Extension>)
    ensures extModules == CompileTargets(walk, excludes, dirs, mainFile)
  {
    var pyFiles := FindPyFiles(walk, excludes, dirs);
    if mainFile.Some? && mainFile.value != "" {
      if mainFile.value in pyFiles {
        pyFiles := RemoveFirst(pyFiles, mainFile.value);
      }
    }
    assert pyFiles == WithoutEntry(PyFiles(walk, excludes, dirs), mainFile);
    extModules := [];
    for i := 0 to |pyFiles|
      invariant extModules == Targets(pyFiles[..i])
    {
      assert pyFiles[..i + 1][..i] == pyFiles[..i];
      var pyFile := pyFiles[i];
      extModules := extModules + [Extension(ModuleName(pyFile), [pyFile])];
    }
    assert pyFiles[..|pyFiles|] == pyFiles;
  }

  /**
   * Every scanned source other than the entry file gets its extension target,
   * named after its relative path.
   */
  lemma {:induction false} EveryKeptSourceIsCompiled(walk: seq<WalkEntry>, excludes: seq<string>, dirs: set<string>, mainFile: Option<string>, p: string)
    requires p in PyFiles(walk, excludes, dirs)
    requires EntryOf(mainFile) != Some(p)
    ensures Extension(ModuleName(p), [p]) in CompileTargets(walk, excludes, dirs, mainFile)
  {
    var files := PyFiles(walk, excludes, dirs);
    var rest := WithoutEntry(files, mainFile);
    assert p in rest by {
      if EntryOf(mainFile).Some? {
        var main := EntryOf(mainFile).value;
        RemoveFirstMultiset(files, main);
        assert multiset(rest)[p] == multiset(files)[p];
      }
    }
    var k :| 0 <= k < |rest| && rest[k] == p;
    TargetsOnePerFile(rest);
  }

  /**
   * Every target comes from a scanned source: a `.py` file that no exclusion
   * removes, compiled under its own path's module name.
   */
  lemma {:induction false} EveryTargetIsAKeptSource(walk: seq<WalkEntry>, excludes: seq<string>, dirs: set<string>, mainFile: Option<string>, t: Extension)
    requires t in CompileTargets(walk, excludes, dirs, mainFile)
    ensures exists p :: p in PyFiles(walk, excludes, dirs) && EndsWith(p, PySuffix) && !FileExcluded(p, excludes)
                        && t == Extension(ModuleName(p), [p])
  {
    var files := PyFiles(walk, excludes, dirs);
    var rest := WithoutEntry(files, mainFile);
    TargetsOnePerFile(rest);
    var k :| 0 <= k < |rest| && Targets(rest)[k] == t;
    var p := rest[k];
    assert p in files by {
      if EntryOf(mainFile).Some? {
        RemoveFirstMultiset(files, EntryOf(mainFile).value);
        assert p in multiset(rest);
      }
    }
    PyFilesAreUnexcludedSources(walk, excludes, dirs);
  }

  /** When the scan lists the entry file once, it is not among the targets' sources. */
  lemma {:induction false} EntryFileIsNotCompiled(walk: seq<WalkEntry>, excludes: seq<string>, dirs: set<string>, main: string)
    requires main != ""
    requires AtMostOnce(PyFiles(walk, excludes, dirs), main)
    ensures Extension(ModuleName(main), [main]) !in CompileTargets(walk, excludes, dirs, Some(main))
  {
    var files := PyFiles(walk, excludes, dirs);
    var rest := RemoveFirst(files, main);
    RemoveFirstOfUnique(files, main);
    TargetsOnePerFile(rest);
  }

  /**
   * Two sources `a` and `b` at the root and a directory `d` that is excluded:
   * the scan yields `a` and `b`, whatever `d` holds.
   */
  lemma {:induction false} ScenarioScan(a: string, b: string, d: string, sub: seq<string>)
    requires EndsWith(a, PySuffix) && EndsWith(b, PySuffix)
    requires Sep !in a && Sep !in b && a != d && b != d
    requires !StartsWith(".", d)
    ensures PyFiles([WalkEntry(".", [a, b]), WalkEntry(d, sub)], [d], {d}) == [a, b]
  {
    var walk := [WalkEntry(".", [a, b]), WalkEntry(d, sub)];
    var excludes := [d];
    var dirs := {d};
    var files := [a, b];
    assert DirPruned(d, excludes, dirs) by {
      assert d in excludes;
    }
    assert !FileExcluded(a, excludes) by {
      assert Sep !in d + [Sep] ==> false;
    }
    assert !FileExcluded(b, excludes) by {
      assert Sep !in d + [Sep] ==> false;
    }
    assert files[..1][..0] == [];
    assert KeptFiles(".", files[..1], excludes) == [a];
    assert KeptFiles(".", files, excludes) == [a, b];
    assert walk[..1][..0] == [];
    assert PyFiles(walk[..1], excludes, dirs) == [a, b];
  }

  /**
   * The same tree with `a` as the entry file: the only target is `b`'s
   * module, built from `b`.
   */
  lemma {:induction false} CompileScenario(a: string, b: string, d: string, sub: seq<string>)
    requires EndsWith(a, PySuffix) && EndsWith(b, PySuffix)
    requires Sep !in a && Sep !in b && a != d && b != d && a != b
    requires !StartsWith(".", d)
    ensures CompileTargets([WalkEntry(".", [a, b]), WalkEntry(d, sub)], [d], {d}, Some(a)) == [Extension(ModuleName(b), [b])]
  {
    var walk := [WalkEntry(".", [a, b]), WalkEntry(d, sub)];
    ScenarioScan(a, b, d, sub);
    assert |a| >= |PySuffix|;
    assert WithoutEntry(PyFiles(walk, [d], {d}), Some(a)) == RemoveFirst([a, b], a) == [b];
    assert [b][..0] == [];
    assert Targets([b]) == [Extension(ModuleName(b), [b])];
  }

  /**
   * The scenario with concrete names: "a.py" and "b.py" at the root, a
   * directory "skip" excluded, "a.py" the entry file; the only target is
   * module "b", built from "b.py".
   */
  lemma {:induction false} CompileExample()
    ensures CompileTargets([WalkEntry(".", ["a.py", "b.py"]), WalkEntry("skip", ["c.py"])], ["skip"], {"skip"}, Some("a.py"))
         == [Extension("b", ["b.py"])]
  {
    assert EndsWith("a.py", PySuffix) && EndsWith("b.py", PySuffix);
    assert !StartsWith(".", "skip");
    CompileScenario("a.py", "b.py", "skip", ["c.py"]);
    assert !Occurs("b", PySuffix) by {
      forall i: nat ensures !OccursAt("b", PySuffix, i) { }
    }
    ModuleNameOfSource("b");
    assert "b" + PySuffix == "b.py";
    assert ModuleName("b.py") == "b";
  }
}
