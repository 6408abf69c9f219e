# pybuildhelper, modelled in Dafny

pybuildhelper is a small build helper for Python projects. `compile` turns
every Python source of a tree, except an entry file, into a Cython extension
module; it finds those sources with `_find_py_files`, which skips excluded
files and directories. `pack` assembles a PyInstaller command line and runs
it; it finds the `.pyd`, `.so` and `.dylib` files already present with
`_find_binary_files`. `pack` can also read hidden imports from a requirements
manifest that may include other manifests with `-r`.

This project models that core:

- `pathtext.dfy` (module `PathText`): the Python string methods and POSIX
  `os.path` functions the helper relies on, over `string`:
  - `str.replace`, `str.strip`, `split(...)[0]` and `split(" ")[1]`;
  - `basename`, `dirname`, `join` and `splitext`.
- `source_filter.dfy` (module `SourceFilter`): `_find_py_files` and
  `_find_binary_files`.
  - Each is a method with the nested loops of the source. The inner loop is a
    helper method of its own.
  - Each is proved equal to a recursive specification function.
  - Membership in that function is characterised in both directions.
- `compile_stage.dfy` (module `CompileStage`): the target derivation of
  `compile`:
  - the scan;
  - `list.remove` of the entry file;
  - one `Extension(module_name, [file])` per remaining file.
- `manifest.dfy` (module `Manifest`): `_get_hidden_imports_from_requirements`.
  It returns a `Result`: the package names, or the error the code raises.
- `pack_stage.dfy` (module `PackStage`): the command built by `pack`, token by
  token, and a `Process` class for the working directory. `pack` changes that
  directory to run PyInstaller and always restores it.
- `wrappers.dfy`: `Option`.

The file system is abstract:

- a walk is a sequence of `WalkEntry(relRoot, files)` in `os.walk` order;
- `dirs` is the set of exclusion strings that name existing directories;
- the recursive glob is a function from pattern to matches;
- `os.path.normpath` is a function parameter;
- manifests are a map from the path opened to that file's lines;
- the results of `abspath` and `relpath` that `pack` needs are inputs:
  - the absolute dist and work directories and the entry path relative to the
    work directory are fields of `PackRequest`;
  - the absolute source directory and, for each data entry, its paths relative
    to the work and source directories are in `Host`;
- the exit status of PyInstaller is a function `run(cmd, cwd)`.

The separator is '/'.

Behaviour of the code that a reader may not expect; the model follows the code:

- Module names. `compile` deletes every ".py" in the relative path, not only
  the extension, so "a.pyb/c.py" becomes module "ab.c"
  (`ModuleNameDeletesEveryPy`).
- Directory exclusion. An exclusion naming a directory prunes every walk
  directory whose relative path merely starts with it: "skip" also prunes
  "skipper" (`DirectoryPruningIsPlainPrefix`).
- Files at the root. A root file whose name begins with an excluded
  directory's name is still compiled: with directory "skip" excluded,
  "skip.py" is kept (`DirectoryExclusionSparesRootNamesalike`).
- Binary exclusion. It is a plain prefix test on normalised paths: "lib" drops
  "libs/x.so" (`BinaryExclusionIsPlainPrefix`).

## Model

| member | source | states |
|---|---|---|
| PathText.ReplaceCharAt | pybuildhelper/build_helper.py:193 | replacing one character by another keeps the length and changes exactly the positions holding that character |
| PathText.SepToDotAt | pybuildhelper/build_helper.py:193 | `replace(os.sep, ".")` turns every separator into a dot, keeps every other character in place, and leaves no separator |
| PathText.DeletePyAfter | pybuildhelper/build_helper.py:193 | deleting every ".py" from `q + ".py" + t`, where `q` holds none, keeps `q` and continues the deletion in `t` |
| PathText.DeletePySuffix | pybuildhelper/build_helper.py:193 | a path whose only ".py" is its suffix loses exactly that suffix |
| PathText.LastIndexOf | pybuildhelper/build_helper.py:93 | the index of the last occurrence of a character, or -1; no occurrence after it |
| PathText.BeforeFirst | pybuildhelper/build_helper.py:153 | `split("==")[0]` is a prefix of the line that ends at the first "==" and holds no earlier one, or is the whole line |
| PathText.BeforeFirstHasNoPattern | pybuildhelper/build_helper.py:153 | the text before the first "==" holds no "==" |
| PathText.BeforeFirstOf | pybuildhelper/build_helper.py:153 | in `a + pat + b`, where `a` lacks `pat`'s first character, the text before the first `pat` is `a` |
| PathText.BeforeFirstNone | pybuildhelper/build_helper.py:153 | a text lacking `pat`'s first character is all text before `pat` |
| PathText.BeforeFirstChar | pybuildhelper/build_helper.py:147 | the text before the first space holds no space, and a space follows it unless it is the whole line |
| PathText.BeforeFirstAbsent | pybuildhelper/build_helper.py:147 | a text without the character is entirely before its first occurrence |
| PathText.SecondSpaceField | pybuildhelper/build_helper.py:147 | `split(" ")[1]` is absent exactly when the line has no space (the IndexError case); otherwise it is the space-free text after the first space and up to the next space or the end |
| PathText.SecondSpaceFieldOf | pybuildhelper/build_helper.py:147 | for two space-free words joined by one space, `split(" ")[1]` is the second word |
| PathText.TrimLeadingSpaceMeaning | pybuildhelper/build_helper.py:144 | `lstrip` removes a run of leading whitespace and stops at the first other character |
| PathText.TrimTrailingSpaceMeaning | pybuildhelper/build_helper.py:144 | `rstrip` removes a run of trailing whitespace and stops at the last other character |
| PathText.StripMeaning | pybuildhelper/build_helper.py:144 | `strip` yields "" exactly for all-whitespace lines, and otherwise text that starts and ends with non-whitespace; the result is the slice of the line between a leading and a trailing run of whitespace |
| PathText.StripUnchanged | pybuildhelper/build_helper.py:144 | a line that neither starts nor ends with whitespace is its own strip |
| PathText.TrimTrailingChar | pybuildhelper/build_helper.py:291 | trailing separators removed: a prefix that does not end in one, and only separators after it |
| PathText.BaseNameAfterDir | pybuildhelper/build_helper.py:255 | a separator-free name at the root, or after a directory ending in a separator, is its own base name |
| PathText.BaseName | pybuildhelper/build_helper.py:255 | `basename` is a separator-free suffix of the path, preceded by a separator unless it is the whole path |
| PathText.DirNameBeforeLastSep | pybuildhelper/build_helper.py:93 | when the last separator does not follow another one, `dirname` is everything before it |
| PathText.SplitExtRoot | pybuildhelper/build_helper.py:318 | `splitext(p)[0]` is a prefix of `p`; when shorter, it stops at a dot followed by no dot and no separator |
| PathText.SplitExtRootOf | pybuildhelper/build_helper.py:255 | `splitext` removes exactly one dot-free, separator-free extension from a name with a stem |
| PathText.JoinMeaning | pybuildhelper/build_helper.py:52 | `os.path.join(a, b)` ends with `b`, with these cases: an absolute `b` replaces `a`; otherwise the result starts with `a`, a separator stands just before `b` when `a` is not empty, and exactly one separator is inserted when `a` is not empty and does not end in one; the result is absolute when either part is |
| SourceFilter.KeepPyFiles | pybuildhelper/build_helper.py:50-60 | the inner loop collects, in order, the relative paths of the directory's `.py` files that no exclusion removes |
| SourceFilter.FindPyFiles | pybuildhelper/build_helper.py:24-62 | the scan returns exactly `PyFiles`: walk order, pruned directories skipped, excluded files dropped |
| SourceFilter.KeptFilesSound | pybuildhelper/build_helper.py:50-60 | every path kept from one directory is the path of one of its `.py` files that no exclusion removes |
| SourceFilter.KeptFilesComplete | pybuildhelper/build_helper.py:50-60 | every such file's path is kept |
| SourceFilter.KeptFilesMembership | pybuildhelper/build_helper.py:50-60 | both directions of the above as one if-and-only-if |
| SourceFilter.PyFilesSound | pybuildhelper/build_helper.py:40-60 | every returned path is the path of a `.py` file of an unpruned walk directory that no exclusion removes |
| SourceFilter.PyFilesComplete | pybuildhelper/build_helper.py:40-60 | every such file's path is returned |
| SourceFilter.PyFilesMembership | pybuildhelper/build_helper.py:40-60 | a path is returned if and only if it is such a file's path |
| SourceFilter.RelPathOfEndsWith | pybuildhelper/build_helper.py:51-53 | the relative path of a file ends with every suffix of the name |
| SourceFilter.PyFilesAreUnexcludedSources | pybuildhelper/build_helper.py:50-60 | every returned path ends in ".py"; no exclusion equals it or is a directory prefix of it |
| SourceFilter.PrunedDirectoriesContributeNothing | pybuildhelper/build_helper.py:42-48 | every returned path comes from a walk directory that no directory exclusion prefixes |
| SourceFilter.DirectoryPruningIsPlainPrefix | pybuildhelper/build_helper.py:43-47 | directory exclusion "skip" also prunes directory "skipper" |
| SourceFilter.FileExclusionNeedsSeparator | pybuildhelper/build_helper.py:56-59 | a non-directory exclusion "skip" leaves "skipper/x.py" in place |
| SourceFilter.FileExclusionByEquality | pybuildhelper/build_helper.py:56-59 | excluding "skip.py" removes exactly that file |
| SourceFilter.DirectoryExclusionSparesRootNamesalike | pybuildhelper/build_helper.py:42-59 | with directory "skip" excluded, the root file "skip.py" is still returned |
| SourceFilter.KeepBinaries | pybuildhelper/build_helper.py:83-96 | the inner loop keeps, in glob order, every match of one pattern that no exclusion prefixes |
| SourceFilter.FindBinaryFiles | pybuildhelper/build_helper.py:65-98 | the scan returns exactly `Binaries` over the patterns `*.pyd`, `*.so`, `*.dylib`, in that order |
| SourceFilter.KeptBinariesSound | pybuildhelper/build_helper.py:83-96 | every kept binary is an unexcluded match of the pattern, under the scanned source directory |
| SourceFilter.KeptBinariesComplete | pybuildhelper/build_helper.py:83-96 | every unexcluded match is kept |
| SourceFilter.KeptBinariesMembership | pybuildhelper/build_helper.py:83-96 | both directions as one if-and-only-if |
| SourceFilter.BinariesSound | pybuildhelper/build_helper.py:82-96 | every returned binary is an unexcluded match of one of the patterns |
| SourceFilter.BinariesComplete | pybuildhelper/build_helper.py:82-96 | every unexcluded match of every pattern is returned |
| SourceFilter.BinariesMembership | pybuildhelper/build_helper.py:82-96 | a binary is returned if and only if it is an unexcluded match of one of the patterns |
| SourceFilter.BinaryDestDirSplitsMatch | pybuildhelper/build_helper.py:93-94 | a root-level match goes to "." under its own name; otherwise destination dir, separator and base name rebuild the match |
| SourceFilter.BinaryExclusionIsPlainPrefix | pybuildhelper/build_helper.py:86-91 | exclusion "lib" drops the match "libs/x.so" |
| CompileStage.ModuleNameOfSource | pybuildhelper/build_helper.py:192-193 | for a path whose only ".py" is its extension, the module name is the path without it, separators turned into dots |
| CompileStage.ModuleNameDeletesEveryPy | pybuildhelper/build_helper.py:193 | a ".py" inside a directory name is deleted as well |
| CompileStage.RemoveFirst | pybuildhelper/build_helper.py:186-187 | removing an absent entry changes nothing |
| CompileStage.RemoveFirstAt | pybuildhelper/build_helper.py:187 | `list.remove` takes out exactly the first occurrence and keeps the order of the rest |
| CompileStage.RemoveFirstMultiset | pybuildhelper/build_helper.py:187 | the result holds the same multiset of files, with one copy of the entry fewer |
| CompileStage.RemoveFirstOfUnique | pybuildhelper/build_helper.py:184-187 | an entry occurring at most once is gone after the removal |
| CompileStage.TargetsOnePerFile | pybuildhelper/build_helper.py:190-194 | one extension per file, in file order, named after that file's path and built from it |
| CompileStage.Compile | pybuildhelper/build_helper.py:180-194 | the extension list is `CompileTargets`: scan, entry file removed once, one target per file |
| CompileStage.EveryKeptSourceIsCompiled | pybuildhelper/build_helper.py:181-194 | every scanned source other than the entry file gets its target |
| CompileStage.EveryTargetIsAKeptSource | pybuildhelper/build_helper.py:181-194 | every target comes from a scanned, unexcluded `.py` file and is named after its path |
| CompileStage.EntryFileIsNotCompiled | pybuildhelper/build_helper.py:184-194 | when the scan lists the entry file once, no target is built from it |
| CompileStage.ScenarioScan | pybuildhelper/build_helper.py:40-62 | two root sources and an excluded directory: the scan yields the two sources, whatever the directory holds |
| CompileStage.CompileScenario | pybuildhelper/build_helper.py:181-194 | the same tree with the first source as entry file yields exactly one target, for the second |
| CompileStage.CompileExample | pybuildhelper/build_helper.py:181-194 | "a.py" and "b.py" at the root, directory "skip" excluded, "a.py" the entry file: the only target is module "b" built from "b.py" |
| Manifest.ClassifyMeaning | pybuildhelper/build_helper.py:144-153 | blank exactly for all-whitespace lines; an include exactly when the stripped line starts with "-r"; a requirement is an "=="-free prefix of the stripped line |
| Manifest.HiddenImportsFromRequirements | pybuildhelper/build_helper.py:129-154 | reading a manifest yields `ParseFile`: missing file and recursion limit as errors, otherwise the names of its lines |
| Manifest.ReadRequirementLines | pybuildhelper/build_helper.py:141-154 | the line loop yields `ParseLines`, stopping at the first error |
| Manifest.ParseLinesAppend | pybuildhelper/build_helper.py:143-154 | reading `a + b` is reading `a`, then `b` |
| Manifest.IncludeLine | pybuildhelper/build_helper.py:145-147 | a line "-r file", where the file name has no whitespace, includes that file |
| Manifest.IncludeSplicedInPlace | pybuildhelper/build_helper.py:145-150 | an included manifest's names appear where its `-r` line stood, in their own order |
| Manifest.NoIncludesNeedNoFiles | pybuildhelper/build_helper.py:143-154 | a manifest without `-r` lines always succeeds, independent of other files and depth |
| Manifest.SelfIncludeExhaustsDepth | pybuildhelper/build_helper.py:145-150 | a manifest that includes itself before any other `-r` line ends in the recursion limit at every depth |
| Manifest.ParseFileDepthMonotone | pybuildhelper/build_helper.py:141-154 | once a manifest reads successfully, more depth gives the same names |
| Manifest.ParseLinesDepthMonotone | pybuildhelper/build_helper.py:141-154 | the same for a sequence of lines |
| Manifest.PinnedRequirementLine | pybuildhelper/build_helper.py:151-153 | "name==version" yields the requirement "name" |
| Manifest.PlainRequirementLine | pybuildhelper/build_helper.py:151-153 | an unpinned requirement line yields its whole text |
| PackStage.FlagPairsLayout | pybuildhelper/build_helper.py:325-326 | the pairs of a list hold twice as many tokens as values, the flag at each even position and the value after it |
| PackStage.AppendPairs | pybuildhelper/build_helper.py:324-332 | each loop of `cmd.extend([flag, value])` appends exactly the flag pairs of its values |
| PackStage.AppendEntryPairs | pybuildhelper/build_helper.py:284-312 | one data entry adds nothing when missing, one pair for a file, one pair per file of a directory |
| PackStage.AppendDataPairs | pybuildhelper/build_helper.py:283-312 | the data loop appends the pairs of every entry in turn |
| PackStage.BuildPackCommand | pybuildhelper/build_helper.py:253-336 | the assembled command is `PackCommand`, or the manifest error that aborts it |
| PackStage.HeaderTokens | pybuildhelper/build_helper.py:257-272 | the first ten tokens: program, name, dist path, work path, spec path, mode |
| PackStage.CommandLayout | pybuildhelper/build_helper.py:257-336 | after a head, four flag sections and a last token, each section's pairs sit at its offset, and the last token ends the command |
| PackStage.AssembledLayout | pybuildhelper/build_helper.py:257-336 | the layout of every command assembled the way `pack` assembles it |
| PackStage.PackCommandLayout | pybuildhelper/build_helper.py:253-336 | a built command holds the nine header tokens and the mode flag, then one `--add-binary` pair per binary, one `--add-data` pair per data value, one `--exclude-module` pair per exclusion and one `--hidden-import` pair per hidden import, each in list order, then the entry path last |
| PackStage.ExplicitHiddenImportsWin | pybuildhelper/build_helper.py:324-326 | a non-empty explicit list is used as is; the manifest path and the manifests then change nothing |
| PackStage.ManifestReadWithoutExplicitList | pybuildhelper/build_helper.py:327-332 | otherwise a given manifest is read: its error aborts `pack`, its names become the hidden imports |
| PackStage.NoHiddenImportsWithoutSource | pybuildhelper/build_helper.py:323-332 | with neither, the command is built with no hidden imports |
| PackStage.DefaultExecutableName | pybuildhelper/build_helper.py:254-255 | without a name (None or ""), the executable is named after the entry file's base name without its extension, for an entry file at the root or in a directory |
| PackStage.DefaultExecutableNameAtRoot | pybuildhelper/build_helper.py:254-255 | the root-level entry file "main.py" gives the executable name "main" |
| PackStage.ExcludeModuleOfSource | pybuildhelper/build_helper.py:317-320 | an excluded "q.py" excludes module `q` with separators turned into dots |
| PackStage.ExcludeModuleOfDotless | pybuildhelper/build_helper.py:317-320 | an excluded dotless path keeps its whole path, dotted |
| PackStage.DataValuesAppend | pybuildhelper/build_helper.py:283-312 | the data values of two lists of entries are those of each list in turn |
| PackStage.MissingDataSkipped | pybuildhelper/build_helper.py:285-287 | entries that do not exist add no `--add-data` value |
| PackStage.Process.constructor | pybuildhelper/build_helper.py:339 | the process starts in the given absolute working directory |
| PackStage.Process.ChangeDir | pybuildhelper/build_helper.py:341 | `chdir` resolves the target against the current directory, or takes an absolute target as is; the directory stays absolute |
| PackStage.RunPackager | pybuildhelper/build_helper.py:339-352 | PyInstaller runs from the intermediate directory; success packages, failure exits; the original directory is restored either way |
| PackStage.Pack | pybuildhelper/build_helper.py:253-352 | a manifest error aborts before any directory change; otherwise the built command runs as above; the working directory is unchanged at the end |

## Left out

- `_clean_directory`, `_copy_data_files`, `os.makedirs` and `shutil.copy2`: their effects are on the file system, which the model does not represent.
- `cythonize` and `setup` in `compile`, and the copy of the entry file: these are calls into Cython and setuptools. The model stops at the list of extensions handed over.
- `subprocess.run`: stands as the parameter `run`, which returns an exit status. `sys.exit(1)` is the `ExitFailure` outcome.
- Output: the `print` calls are omitted.
- `os.walk`, `glob.glob`, `os.path.isdir`, `os.path.exists`, `os.path.normpath` and `os.path.abspath`: their results are inputs, not computed.
- `os.path.relpath`: some of its results are inputs:
  - the walk directory's `rel_root` (line 42);
  - the glob matches, which are given relative to the source directory (line 84);
  - `pack`'s data paths (lines 290-302) and entry path (line 335).
- `os.path.relpath`, derived rather than input:
  - the file's `rel_path` at line 53 is `SourceFilter.RelPathOf` of the walk directory and the file name;
  - the binary's `rel_dir` at line 93 is `BinaryRef.DestDir`, the `DirName` of its relative match;
  - `compile`'s `rel_path` at line 192 is the scanned relative path itself.
- Separators: only '/' is modelled. Windows separators and drive letters are not.
- `compile_and_pack` and `setup.py`: outside the modelled core.
- SourceFilter.FindPyFiles: returns paths relative to the source directory rather than joined onto it. Joining the source directory onto relative file names keeps distinct names distinct, so membership among the scan results is unaffected.
- CompileStage.Compile: compares the entry file with the relative scan results. The source compares `join(source_dir, main_file)` with the joined scan results. The two agree for a relative `main_file`, which is what the source documents. An absolute `main_file` is not modelled: the source's `join` then returns `main_file` itself, so `/p/a.py` under source directory `/p` is removed there, while the model keeps `a.py`. Each extension's source list holds the relative path.
- Manifest.HiddenImportsFromRequirements: Python's recursion limit becomes the `depth` parameter, and exhausting it is the `RecursionLimit` error. Errors raised while opening a file other than a missing file (permissions, decoding) are not modelled.
- PackStage.RunPackager: an exception other than a failed exit status is not modelled, for instance a missing `pyinstaller` program. The `finally` restore would apply to it as well.
- PackStage.Process.ChangeDir: `chdir` into a directory that does not exist is not modelled as failing. The preceding `makedirs` creates it.
- PackStage.Pack: `onefile=None` takes the `--onedir` branch, as the code's truthiness test does. The working directory is taken to be absolute, as `os.getcwd` reports it.
