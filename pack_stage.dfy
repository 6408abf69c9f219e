/**
 * `pack`: the PyInstaller command line assembled token by token, and the run of
 * that command from the intermediate directory with the working directory
 * restored afterwards.
 *
 * The host is abstract: the absolute source directory, the recursive glob and
 * `os.path.normpath` that the binary scan uses, what each data entry is on
 * disk, and the manifests. Results of `os.path.abspath` and `os.path.relpath`
 * are inputs.
 */
module PackStage {

  import opened Wrappers
  import opened PathText
  import opened SourceFilter
  import opened Manifest

  /** One file met while walking a data directory: its path relative to the intermediate directory, and its walk directory relative to the source directory. */
  datatype DirFile = DirFile(relFromWork: string, destDir: string)

  /**
   * What a data entry is on disk: missing, a single file (with its path
   * relative to the intermediate directory), or a directory with the files
   * its walk yields.
   */
  datatype DataSource = Missing | DataFile(relFromWork: string) | DataDir(files: seq<DirFile>)

  /** The file system and manifests that `pack` consults. */
  datatype Host = Host(
    absSourceDir: string,
    glob: string -> seq<string>,
    normpath: string -> string,
    data: string -> DataSource,
    manifests: Manifests,
    depth: nat)

  /** The arguments of `pack`, with the `abspath`/`relpath` results it needs. */
  datatype PackRequest = PackRequest(
    mainFile: string,
    dataFiles: Option<seq<string>>,
    excludeFiles: Option<seq<string>>,
    hiddenImports: Option<seq<string>>,
    requirements: Option<string>,
    executableName: Option<string>,
    onefile: Option<bool>,
    intermediateDir: string,
    absDistDir: string,
    absWorkDir: string,
    mainRelToWork: string)

  /** `x or []` for an optional list. */
  function OrEmpty(xs: Option<seq<string>>): seq<string>
  {
    if xs.Some? then xs.value else []
  }

  /** `if not executable_name`: None and "" both fall back to the entry file's stem. */
  function ExecutableName(mainFile: string, executableName: Option<string>): string
  {
    if executableName.Some? && executableName.value != "" then executableName.value
    else SplitExtRoot(BaseName(mainFile))
  }

  /** The first nine tokens. */
  function Header(name: string, absDistDir: string, absWorkDir: string): seq<string>
  {
    ["pyinstaller", "--name", name, "--distpath", absDistDir, "--workpath", absWorkDir, "--specpath", absWorkDir]
  }

  /** `--onefile` when `onefile` is true, `--onedir` for False and None. */
  function ModeFlag(onefile: Option<bool>): string
  {
    if onefile == Some(true) then "--onefile" else "--onedir"
  }

  /** The four flags that take one value each. */
  const AddBinary := "--add-binary"
  const AddData := "--add-data"
  const ExcludeModule := "--exclude-module"
  const HiddenImport := "--hidden-import"

  /** `flag v0 flag v1 ...`: what `cmd.extend([flag, v])` per value appends. */
  function FlagPairs(flag: string, values: seq<string>): seq<string>
  {
    if values == [] then []
    else FlagPairs(flag, values[..|values| - 1]) + [flag, values[|values| - 1]]
  }

  /** `f"{src}:{dest}"` for a binary found by the scan. */
  function BinaryArg(b: BinaryRef): string
  {
    b.Source() + ":" + b.DestDir()
  }

  function BinaryValues(bs: seq<BinaryRef>): seq<string>
  {
    seq(|bs|, k requires 0 <= k < |bs| => BinaryArg(bs[k]))
  }

  /** The `--add-data` values of one data entry `name`. */
  function DataEntryValues(name: string, source: DataSource): seq<string>
  {
    match source
    case Missing => []
    case DataFile(rel) => [rel + ":" + DirName(name)]
    case DataDir(files) => DirFileValues(files)
  }

  /** `f"{rel_file_path}:{file_dest_path}"` for each file of a data directory. */
  function DirFileValues(files: seq<DirFile>): seq<string>
  {
    seq(|files|, k requires 0 <= k < |files| => files[k].relFromWork + ":" + files[k].destDir)
  }

  /** The `--add-data` values of all data entries, entry by entry. */
  function DataValues(names: seq<string>, data: string -> DataSource): seq<string>
  {
    if names == [] then []
    else DataValues(names[..|names| - 1], data) + DataEntryValues(names[|names| - 1], data(names[|names| - 1]))
  }

  /** `os.path.splitext(ex)[0].replace(os.sep, ".")`. */
  function ExcludeModuleName(ex: string): string
  {
    SepToDot(SplitExtRoot(ex))
  }

  function ExcludeValues(excludes: seq<string>): seq<string>
  {
    seq(|excludes|, k requires 0 <= k < |excludes| => ExcludeModuleName(excludes[k]))
  }

  /** An explicit non-empty list wins; otherwise a non-empty manifest path is read; otherwise none. */
  function HiddenImportNames(req: PackRequest, host: Host): Result<seq<string>>
  {
    if req.hiddenImports.Some? && req.hiddenImports.value != [] then Ok(req.hiddenImports.value)
    else if req.requirements.Some? && req.requirements.value != "" then ParseFile(host.manifests, req.requirements.value, host.depth)
    else Ok([])
  }

  /** What `_find_binary_files(os.path.abspath(source_dir), exclude_files)` returns. */
  function PackBinaries(req: PackRequest, host: Host): seq<BinaryRef>
  {
    Binaries(host.absSourceDir, host.glob, BinaryPatterns, OrEmpty(req.excludeFiles), host.normpath)
  }

  /** The command `pack` runs, or the error reading the manifest raises. */
  function PackCommand(req: PackRequest, host: Host): Result<seq<string>>
  {
    var hidden := HiddenImportNames(req, host);
    if hidden.Err? then Err(hidden.error)
    else Ok(Header(ExecutableName(req.mainFile, req.executableName), req.absDistDir, req.absWorkDir)
            + [ModeFlag(req.onefile)]
            + FlagPairs(AddBinary, BinaryValues(PackBinaries(req, host)))
            + FlagPairs(AddData, DataValues(OrEmpty(req.dataFiles), host.data))
            + FlagPairs(ExcludeModule, ExcludeValues(OrEmpty(req.excludeFiles)))
            + FlagPairs(HiddenImport, hidden.value)
            + [req.mainRelToWork])
  }

  /* ---------------------------------------------------------------------- */
  /* Building the command                                                    */

  lemma {:induction false} FlagPairsStep(flag: string, values: seq<string>, i: int)
    requires 0 <= i < |values|
    ensures FlagPairs(flag, values[..i + 1]) == FlagPairs(flag, values[..i]) + [flag, values[i]]
  {
    assert values[..i + 1][..i] == values[..i];
  }

  /** Pairs for a concatenation are the pairs of each part, in order. */
  lemma {:induction false} FlagPairsAppend(flag: string, a: seq<string>, b: seq<string>)
    ensures FlagPairs(flag, a + b) == FlagPairs(flag, a) + FlagPairs(flag, b)
    decreases |b|
  {
    if b == [] {
      assert a + b == a;
    } else {
      var n := |b| - 1;
      assert (a + b)[..|a + b| - 1] == a + b[..n];
      assert (a + b)[|a + b| - 1] == b[n];
      FlagPairsAppend(flag, a, b[..n]);
      AppendAssociative(FlagPairs(flag, a), FlagPairs(flag, b[..n]), [flag, b[n]]);
    }
  }

  /** Twice as many tokens as values: the flag at each even index, the value after it. */
  lemma {:induction false} FlagPairsLayout(flag: string, values: seq<string>)
    ensures |FlagPairs(flag, values)| == 2 * |values|
    ensures forall k :: 0 <= k < |values| ==>
      FlagPairs(flag, values)[2 * k] == flag && FlagPairs(flag, values)[2 * k + 1] == values[k]
  {
    if values != [] {
      var n := |values| - 1;
      FlagPairsLayout(flag, values[..n]);
      forall k | 0 <= k < n ensures values[..n][k] == values[k] { }
    }
  }

  /** The `for module in ...: cmd.extend(["--hidden-import", module])` loops and their like. */
  method AppendPairs(cmd: seq<string>, flag: string, values: seq<string>) returns (r: seq<string>)
    ensures r == cmd + FlagPairs(flag, values)
  {
    r := cmd;
    for i := 0 to |values|
      invariant r == cmd + FlagPairs(flag, values[..i])
    {
      FlagPairsStep(flag, values, i);
      AppendAssociative(cmd, FlagPairs(flag, values[..i]), [flag, values[i]]);
      r := r + [flag, values[i]];
    }
    assert values[..|values|] == values;
  }

  /** The pairs of one data entry: none when it is missing, one for a file, one per file of a directory. */
  method AppendEntryPairs(cmd: seq<string>, name: string, source: DataSource) returns (r: seq<string>)
    ensures r == cmd + FlagPairs(AddData, DataEntryValues(name, source))
  {
    r := cmd;
    match source {
      case Missing =>
      case DataFile(rel) =>
        assert [rel + ":" + DirName(name)][..0] == [];
        r := r + [AddData, rel + ":" + DirName(name)];
      case DataDir(files) =>
        var values := DirFileValues(files);
        for j := 0 to |files|
          invariant r == cmd + FlagPairs(AddData, values[..j])
        {
          FlagPairsStep(AddData, values, j);
          AppendAssociative(cmd, FlagPairs(AddData, values[..j]), [AddData, values[j]]);
          r := r + [AddData, files[j].relFromWork + ":" + files[j].destDir];
        }
        assert values[..|files|] == values;
    }
  }

  /** The `if data_files:` loop, entry by entry. */
  method AppendDataPairs(cmd: seq<string>, names: seq<string>, data: string -> DataSource) returns (r: seq<string>)
    ensures r == cmd + FlagPairs(AddData, DataValues(names, data))
  {
    r := cmd;
    for i := 0 to |names|
      invariant r == cmd + FlagPairs(AddData, DataValues(names[..i], data))
    {
      var name := names[i];
      assert names[..i + 1][..i] == names[..i];
      assert DataValues(names[..i + 1], data) == DataValues(names[..i], data) + DataEntryValues(name, data(name));
      FlagPairsAppend(AddData, DataValues(names[..i], data), DataEntryValues(name, data(name)));
      AppendAssociative(cmd, FlagPairs(AddData, DataValues(names[..i], data)),
                        FlagPairs(AddData, DataEntryValues(name, data(name))));
      r := AppendEntryPairs(r, name, data(name));
    }
    assert names[..|names|] == names;
  }

  /** Lines 254-336 of `pack`: the command, or the manifest error. */
  method BuildPackCommand(req: PackRequest, host: Host) returns (r: Result<seq<string>>)
    ensures r == PackCommand(req, host)
  {
    var executableName := ExecutableName(req.mainFile, req.executableName);
    var cmd := Header(executableName, req.absDistDir, req.absWorkDir);
    if req.onefile == Some(true) {
      cmd := cmd + ["--onefile"];
    } else {
      cmd := cmd + ["--onedir"];
    }
    var excludes := OrEmpty(req.excludeFiles);
    var binaryPairs := FindBinaryFiles(host.absSourceDir, host.glob, excludes, host.normpath);
    cmd := AppendPairs(cmd, AddBinary, BinaryValues(binaryPairs));
    cmd := AppendDataPairs(cmd, OrEmpty(req.dataFiles), host.data);
    cmd := AppendPairs(cmd, ExcludeModule, ExcludeValues(excludes));
    var hiddenImports: seq<string> := [];
    if req.hiddenImports.Some? && req.hiddenImports.value != [] {
      hiddenImports := req.hiddenImports.value;
    } else if req.requirements.Some? && req.requirements.value != "" {
      var parsed := HiddenImportsFromRequirements(host.manifests, req.requirements.value, host.depth);
      if parsed.Err? {
        return Err(parsed.error);
      }
      hiddenImports := parsed.value;
    }
    cmd := AppendPairs(cmd, HiddenImport, hiddenImports);
    cmd := cmd + [req.mainRelToWork];
    return Ok(cmd);
  }

  /* ---------------------------------------------------------------------- */
  /* Properties of the command                                               */

  /** Tokens `off`, `off + 1`, ... of `cmd` are the pairs `flag values[k]`. */
  ghost predicate PairsAt(cmd: seq<string>, off: int, flag: string, values: seq<string>)
  {
    && 0 <= off && off + 2 * |values| <= |cmd|
    && forall k :: 0 <= k < |values| ==> cmd[off + 2 * k] == flag && cmd[off + 2 * k + 1] == values[k]
  }

  /** `x` is exactly the flag pairs of `values`. */
  ghost predicate Section(x: seq<string>, flag: string, values: seq<string>)
  {
    |x| == 2 * |values| && PairsAt(x, 0, flag, values)
  }

  lemma {:induction false} FlagPairsSection(flag: string, values: seq<string>)
    ensures Section(FlagPairs(flag, values), flag, values)
  {
    FlagPairsLayout(flag, values);
  }

  /** Appending text after a command keeps the pairs already laid out in it. */
  lemma {:induction false} PairsAtExtended(x: seq<string>, y: seq<string>, off: int, flag: string, values: seq<string>)
    requires PairsAt(x, off, flag, values)
    ensures PairsAt(x + y, off, flag, values)
  {
    var z := x + y;
    forall k | 0 <= k < |values| ensures z[off + 2 * k] == flag && z[off + 2 * k + 1] == values[k] {
      assert z[off + 2 * k] == x[off + 2 * k];
      assert z[off + 2 * k + 1] == x[off + 2 * k + 1];
    }
  }

  /** A section appended to a command is laid out from the command's end. */
  lemma {:induction false} SectionAppended(x: seq<string>, y: seq<string>, flag: string, values: seq<string>)
    requires Section(y, flag, values)
    ensures PairsAt(x + y, |x|, flag, values)
  {
    var z := x + y;
    forall k | 0 <= k < |values| ensures z[|x| + 2 * k] == flag && z[|x| + 2 * k + 1] == values[k] {
      assert z[|x| + 2 * k] == y[2 * k];
      assert z[|x| + 2 * k + 1] == y[2 * k + 1];
    }
  }

  /** The positions of every token in a command assembled from a head, four flag sections and a last token. */
  lemma {:induction false} CommandLayout(head: seq<string>, f1: string, bs: seq<string>, a: seq<string>,
                                         f2: string, ds: seq<string>, b: seq<string>, f3: string, es: seq<string>, c: seq<string>,
                                         f4: string, hs: seq<string>, d: seq<string>, last: string, n: int, cmd: seq<string>)
    requires Section(a, f1, bs) && Section(b, f2, ds) && Section(c, f3, es) && Section(d, f4, hs)
    requires cmd == head + a + b + c + d + [last] && n == |head|
    ensures |cmd| == n + 1 + 2 * (|bs| + |ds| + |es| + |hs|)
    ensures cmd[..n] == head
    ensures PairsAt(cmd, n, f1, bs)
    ensures PairsAt(cmd, n + 2 * |bs|, f2, ds)
    ensures PairsAt(cmd, n + 2 * (|bs| + |ds|), f3, es)
    ensures PairsAt(cmd, n + 2 * (|bs| + |ds| + |es|), f4, hs)
    ensures cmd[|cmd| - 1] == last
  {
    var o2, o3, o4 := n + 2 * |bs|, n + 2 * (|bs| + |ds|), n + 2 * (|bs| + |ds| + |es|);
    var s1 := head + a;
    assert |s1| == o2;
    SectionAppended(head, a, f1, bs);
    var s2 := s1 + b;
    assert |s2| == o3;
    SectionAppended(s1, b, f2, ds);
    PairsAtExtended(s1, b, n, f1, bs);
    var s3 := s2 + c;
    assert |s3| == o4;
    SectionAppended(s2, c, f3, es);
    PairsAtExtended(s2, c, n, f1, bs);
    PairsAtExtended(s2, c, o2, f2, ds);
    var s4 := s3 + d;
    SectionAppended(s3, d, f4, hs);
    PairsAtExtended(s3, d, n, f1, bs);
    PairsAtExtended(s3, d, o2, f2, ds);
    PairsAtExtended(s3, d, o3, f3, es);
    assert cmd == s4 + [last];
    PairsAtExtended(s4, [last], n, f1, bs);
    PairsAtExtended(s4, [last], o2, f2, ds);
    PairsAtExtended(s4, [last], o3, f3, es);
    PairsAtExtended(s4, [last], o4, f4, hs);
    assert head <= s1 <= s2 <= s3 <= s4 <= cmd;
  }

  /** The ten tokens every command starts with. */
  lemma {:induction false} HeaderTokens(name: string, distDir: string, workDir: string, mode: string, cmd: seq<string>)
    requires |cmd| >= 10 && cmd[..10] == Header(name, distDir, workDir) + [mode]
    ensures cmd[0] == "pyinstaller" && cmd[1] == "--name" && cmd[2] == name
    ensures cmd[3] == "--distpath" && cmd[4] == distDir
    ensures cmd[5] == "--workpath" && cmd[6] == workDir && cmd[7] == "--specpath" && cmd[8] == workDir
    ensures cmd[9] == mode
  {
    var head := Header(name, distDir, workDir) + [mode];
    assert cmd[0] == head[0] && cmd[1] == head[1] && cmd[2] == head[2] && cmd[3] == head[3] && cmd[4] == head[4] by {
      assert cmd[..10][0] == cmd[0] && cmd[..10][1] == cmd[1] && cmd[..10][2] == cmd[2];
      assert cmd[..10][3] == cmd[3] && cmd[..10][4] == cmd[4];
    }
    assert cmd[5] == head[5] && cmd[6] == head[6] && cmd[7] == head[7] && cmd[8] == head[8] && cmd[9] == head[9] by {
      assert cmd[..10][5] == cmd[5] && cmd[..10][6] == cmd[6] && cmd[..10][7] == cmd[7];
      assert cmd[..10][8] == cmd[8] && cmd[..10][9] == cmd[9];
    }
  }

  /** The layout of every command assembled the way `pack` assembles it. */
  lemma {:induction false} AssembledLayout(name: string, distDir: string, workDir: string, mode: string,
                                           bs: seq<string>, ds: seq<string>, es: seq<string>, hs: seq<string>, last: string, cmd: seq<string>)
    requires cmd == Header(name, distDir, workDir) + [mode] + FlagPairs(AddBinary, bs) + FlagPairs(AddData, ds)
                    + FlagPairs(ExcludeModule, es) + FlagPairs(HiddenImport, hs) + [last]
    ensures |cmd| == 11 + 2 * (|bs| + |ds| + |es| + |hs|)
    ensures cmd[0] == "pyinstaller" && cmd[1] == "--name" && cmd[2] == name
    ensures cmd[3] == "--distpath" && cmd[4] == distDir
    ensures cmd[5] == "--workpath" && cmd[6] == workDir && cmd[7] == "--specpath" && cmd[8] == workDir
    ensures cmd[9] == mode
    ensures PairsAt(cmd, 10, AddBinary, bs)
    ensures PairsAt(cmd, 10 + 2 * |bs|, AddData, ds)
    ensures PairsAt(cmd, 10 + 2 * (|bs| + |ds|), ExcludeModule, es)
    ensures PairsAt(cmd, 10 + 2 * (|bs| + |ds| + |es|), HiddenImport, hs)
    ensures cmd[|cmd| - 1] == last
  {
    var head := Header(name, distDir, workDir) + [mode];
    assert |head| == 10;
    FlagPairsSection(AddBinary, bs);
    FlagPairsSection(AddData, ds);
    FlagPairsSection(ExcludeModule, es);
    FlagPairsSection(HiddenImport, hs);
    CommandLayout(head, AddBinary, bs, FlagPairs(AddBinary, bs), AddData, ds, FlagPairs(AddData, ds),
                  ExcludeModule, es, FlagPairs(ExcludeModule, es), HiddenImport, hs, FlagPairs(HiddenImport, hs),
                  last, 10, cmd);
    HeaderTokens(name, distDir, workDir, mode, cmd);
  }

  /**
   * The layout of a successful command: the nine header tokens, the mode flag,
   * one `--add-binary` pair per binary found, one `--add-data` pair per data
   * value, one `--exclude-module` pair per exclusion, one `--hidden-import`
   * pair per hidden import, each in list order, and the entry path last.
   */
  lemma {:induction false} PackCommandLayout(req: PackRequest, host: Host, cmd: seq<string>,
                                             bs: seq<string>, ds: seq<string>, es: seq<string>, hs: seq<string>)
    requires PackCommand(req, host) == Ok(cmd)
    requires bs == BinaryValues(PackBinaries(req, host))
    requires ds == DataValues(OrEmpty(req.dataFiles), host.data)
    requires es == ExcludeValues(OrEmpty(req.excludeFiles))
    requires HiddenImportNames(req, host) == Ok(hs)
    ensures |cmd| == 11 + 2 * (|bs| + |ds| + |es| + |hs|)
    ensures cmd[0] == "pyinstaller" && cmd[1] == "--name" && cmd[2] == ExecutableName(req.mainFile, req.executableName)
    ensures cmd[3] == "--distpath" && cmd[4] == req.absDistDir
    ensures cmd[5] == "--workpath" && cmd[6] == req.absWorkDir
    ensures cmd[7] == "--specpath" && cmd[8] == req.absWorkDir
    ensures cmd[9] == (if req.onefile == Some(true) then "--onefile" else "--onedir")
    ensures PairsAt(cmd, 10, AddBinary, bs)
    ensures PairsAt(cmd, 10 + 2 * |bs|, AddData, ds)
    ensures PairsAt(cmd, 10 + 2 * (|bs| + |ds|), ExcludeModule, es)
    ensures PairsAt(cmd, 10 + 2 * (|bs| + |ds| + |es|), HiddenImport, hs)
    ensures cmd[|cmd| - 1] == req.mainRelToWork
  {
    AssembledLayout(ExecutableName(req.mainFile, req.executableName), req.absDistDir, req.absWorkDir, ModeFlag(req.onefile),
                    bs, ds, es, hs, req.mainRelToWork, cmd);
  }

  /**
   * A non-empty explicit list of hidden imports makes the manifest
   * irrelevant: the command is built, and it is the same whatever the
   * manifest path and the manifests are.
   */
  lemma {:induction false} ExplicitHiddenImportsWin(req: PackRequest, host: Host, requirements: Option<string>, manifests: Manifests)
    requires req.hiddenImports.Some? && req.hiddenImports.value != []
    ensures PackCommand(req, host).Ok?
    ensures HiddenImportNames(req, host) == Ok(req.hiddenImports.value)
    ensures PackCommand(req.(requirements := requirements), host.(manifests := manifests)) == PackCommand(req, host)
  {
  }

  /**
   * Without an explicit list, a given manifest is read: its error aborts
   * `pack`, and otherwise its names are the hidden imports.
   */
  lemma {:induction false} ManifestReadWithoutExplicitList(req: PackRequest, host: Host)
    requires req.hiddenImports.None? || req.hiddenImports.value == []
    requires req.requirements.Some? && req.requirements.value != ""
    ensures var parsed := ParseFile(host.manifests, req.requirements.value, host.depth);
      && (parsed.Err? ==> PackCommand(req, host) == Err(parsed.error))
      && (parsed.Ok? ==> PackCommand(req, host).Ok? && HiddenImportNames(req, host) == parsed)
  {
  }

  /** With neither an explicit list nor a manifest path, no `--hidden-import` is added. */
  lemma {:induction false} NoHiddenImportsWithoutSource(req: PackRequest, host: Host)
    requires req.hiddenImports.None? || req.hiddenImports.value == []
    requires req.requirements.None? || req.requirements.value == ""
    ensures PackCommand(req, host).Ok? && HiddenImportNames(req, host) == Ok([])
  {
  }

  /**
   * The default name is the entry file's base name without its extension,
   * whether the entry sits at the root or in a directory: "main.py" and
   * "app/main.py" both give "main".
   */
  lemma {:induction false} DefaultExecutableName(dir: string, stem: string, ext: string)
    requires dir == [] || EndsWith(dir, [Sep])
    requires HasStem(stem) && Sep !in stem && '.' !in ext && Sep !in ext
    ensures ExecutableName(dir + stem + "." + ext, None) == stem
    ensures ExecutableName(dir + stem + "." + ext, Some("")) == stem
  {
    var file := stem + "." + ext;
    var path := dir + stem + "." + ext;
    NoSepInDotted(stem, ext);
    assert path == dir + file by {
      AppendAssociative(dir + stem, ".", ext);
      AppendAssociative(dir, stem, "." + ext);
      AppendAssociative(stem, ".", ext);
    }
    BaseNameAfterDir(dir, file);
    SplitExtRootOf(stem, ext);
    DefaultNameOf(path, file, stem);
  }

  lemma {:induction false} DefaultNameOf(mainFile: string, file: string, stem: string)
    requires BaseName(mainFile) == file && SplitExtRoot(file) == stem
    ensures ExecutableName(mainFile, None) == stem && ExecutableName(mainFile, Some("")) == stem
  {
  }

  lemma {:induction false} NoSepInDotted(stem: string, ext: string)
    requires Sep !in stem && Sep !in ext
    ensures Sep !in stem + "." + ext
  {
    var file := stem + "." + ext;
    forall k | 0 <= k < |file| ensures file[k] != Sep {
      if k < |stem| {
        assert file[k] == stem[k];
      } else if k > |stem| {
        assert file[k] == ext[k - |stem| - 1];
      }
    }
  }

  /** A root-level entry file "main.py" packs as executable "main". */
  lemma {:induction false} DefaultExecutableNameAtRoot()
    ensures ExecutableName("main.py", None) == "main"
  {
    var stem, ext, file := "main", "py", "main.py";
    assert Sep !in stem by {
      assert stem[0] != Sep && stem[1] != Sep && stem[2] != Sep && stem[3] != Sep;
    }
    assert LastIndexOf(stem, Sep) == -1;
    assert HasStem(stem) by {
      assert stem[0] != '.';
    }
    assert stem + "." + ext == file;
    SplitExtRootOf(stem, ext);
    assert Sep !in file by {
      NoSepInDotted(stem, ext);
    }
    assert [] + file == file;
    BaseNameAfterDir([], file);
    DefaultNameOf(file, file, stem);
  }


  /** An excluded source `q.py` becomes module `q` with separators turned into dots: "pkg/mod.py" gives "pkg.mod". */
  lemma {:induction false} ExcludeModuleOfSource(q: string)
    requires HasStem(q)
    ensures ExcludeModuleName(q + PySuffix) == SepToDot(q)
  {
    SplitExtRootOf(q, "py");
    assert q + "." + "py" == q + PySuffix;
  }

  /** An excluded path with no dot, such as a directory "pkg/sub", keeps its whole path: "pkg.sub". */
  lemma {:induction false} ExcludeModuleOfDotless(q: string)
    requires '.' !in q
    ensures ExcludeModuleName(q) == SepToDot(q)
  {
    assert LastIndexOf(q, '.') == -1;
  }

  /** The data entries' values are those of each entry in turn. */
  lemma {:induction false} DataValuesAppend(a: seq<string>, b: seq<string>, data: string -> DataSource)
    ensures DataValues(a + b, data) == DataValues(a, data) + DataValues(b, data)
    decreases |b|
  {
    if b == [] {
      assert a + b == a;
    } else {
      var n := |b| - 1;
      assert (a + b)[..|a + b| - 1] == a + b[..n];
      assert (a + b)[|a + b| - 1] == b[n];
      DataValuesAppend(a, b[..n], data);
      var z := DataEntryValues(b[n], data(b[n]));
      assert DataValues(a + b, data) == DataValues(a + b[..n], data) + z;
      assert DataValues(b, data) == DataValues(b[..n], data) + z;
      AppendAssociative(DataValues(a, data), DataValues(b[..n], data), z);
    }
  }

  /** Entries that do not exist add nothing. */
  lemma {:induction false} MissingDataSkipped(names: seq<string>, data: string -> DataSource)
    requires forall k :: 0 <= k < |names| ==> data(names[k]).Missing?
    ensures DataValues(names, data) == []
  {
    if names != [] {
      var n := |names| - 1;
      assert forall k :: 0 <= k < n ==> names[..n][k] == names[k];
      MissingDataSkipped(names[..n], data);
    }
  }

  /* ---------------------------------------------------------------------- */
  /* Running the command                                                     */

  /** The process state `pack` touches: its working directory, absolute as `os.getcwd` reports it. */
  class Process {
    var cwd: string

    predicate Absolute()
      reads this
    {
      StartsWith(cwd, [Sep])
    }

    constructor(cwd: string)
      requires StartsWith(cwd, [Sep])
      ensures this.cwd == cwd && Absolute()
    {
      this.cwd := cwd;
    }

    /** `os.chdir(dir)`, relative to the current directory unless absolute; the result stays absolute. */
    method ChangeDir(dir: string)
      requires Absolute()
      modifies this
      ensures cwd == Join(old(cwd), dir) && Absolute()
      ensures StartsWith(dir, [Sep]) ==> cwd == dir
    {
      cwd := Join(cwd, dir);
    }
  }

  /** How `pack` ends: packaged, the `sys.exit(1)` after PyInstaller fails, or the manifest error raised before it runs. */
  datatype PackOutcome = Packaged | ExitFailure | ManifestFailed(error: ManifestError)

  /** The outcome of running `cmd`, given the exit status of PyInstaller run from `cwd`. */
  function RunOutcome(cmd: seq<string>, cwd: string, run: (seq<string>, string) -> int): PackOutcome
  {
    if run(cmd, cwd) == 0 then Packaged else ExitFailure
  }

  /**
   * Lines 339-352: PyInstaller runs from the intermediate directory; the
   * original working directory is restored whether or not it succeeds.
   */
  method RunPackager(proc: Process, cmd: seq<string>, intermediateDir: string, run: (seq<string>, string) -> int)
    returns (outcome: PackOutcome)
    requires proc.Absolute()
    modifies proc
    ensures proc.cwd == old(proc.cwd)
    ensures outcome == RunOutcome(cmd, Join(old(proc.cwd), intermediateDir), run)
  {
    var originalDir := proc.cwd;
    proc.ChangeDir(intermediateDir);
    var status := run(cmd, proc.cwd);
    if status == 0 {
      outcome := Packaged;
    } else {
      outcome := ExitFailure;
    }
    proc.ChangeDir(originalDir);
  }

  /** The whole of `pack` after the directory cleaning: build the command, then run it. */
  method Pack(proc: Process, req: PackRequest, host: Host, run: (seq<string>, string) -> int)
    returns (outcome: PackOutcome)
    requires proc.Absolute()
    modifies proc
    ensures proc.cwd == old(proc.cwd)
    ensures match PackCommand(req, host)
            case Err(e) => outcome == ManifestFailed(e)
            case Ok(cmd) => outcome == RunOutcome(cmd, Join(old(proc.cwd), req.intermediateDir), run)
  {
    var cmd := BuildPackCommand(req, host);
    if cmd.Err? {
      return ManifestFailed(cmd.error);
    }
    outcome := RunPackager(proc, cmd.value, req.intermediateDir, run);
  }
}
