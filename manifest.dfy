/**
 * `_get_hidden_imports_from_requirements`: a requirements manifest read line by
 * line, where `-r <file>` splices in another manifest's names and every other
 * non-blank line names one package, its `==` pin dropped.
 *
 * Files are a map from the path string the code opens to that file's lines.
 * Python's recursion limit becomes `depth`, the number of manifests that may be
 * open at once; with no cycle detection, a manifest that includes itself keeps
 * recursing until Python stops it, which the model reports as `RecursionLimit`.
 */
module Manifest {

  import opened Wrappers
  import opened PathText

  /** How reading a manifest can fail: `open` of a missing file, `split(" ")[1]` on a bare `-r`, or the recursion limit. */
  datatype ManifestError = FileNotFound(path: string) | MissingIncludePath(line: string) | RecursionLimit

  datatype Result<T> = Ok(value: T) | Err(error: ManifestError)

  type Manifests = map<string, seq<string>>

  const IncludeDirective: string := "-r"
  const VersionPin: string := "=="

  /** What one line of a manifest is, after `strip`. */
  datatype LineKind = Blank | Include(target: Option<string>) | Requirement(name: string)

  function Classify(raw: string): LineKind
  {
    var line := Strip(raw);
    if StartsWith(line, IncludeDirective) then Include(SecondSpaceField(line))
    else if line == [] then Blank
    else Requirement(BeforeFirst(line, VersionPin))
  }

  /**
   * Only a line of whitespace is blank; a `-r` line is recognised after
   * stripping; a requirement is a `==`-free prefix of the stripped line.
   */
  lemma {:induction false} ClassifyMeaning(raw: string)
    ensures Classify(raw) == Blank <==> forall i :: 0 <= i < |raw| ==> IsSpace(raw[i])
    ensures Classify(raw).Include? <==> StartsWith(Strip(raw), IncludeDirective)
    ensures Classify(raw).Requirement? ==> Classify(raw).name <= Strip(raw) && !Occurs(Classify(raw).name, VersionPin)
  {
    var line := Strip(raw);
    StripMeaning(raw);
    if !StartsWith(line, IncludeDirective) && line != [] {
      BeforeFirstHasNoPattern(line, VersionPin);
    }
  }

  /** `acc` followed by the names of `r`, or `r`'s error. */
  function Prepended(acc: seq<string>, r: Result<seq<string>>): Result<seq<string>>
  {
    if r.Err? then r else Ok(acc + r.value)
  }

  /** Reading one part, then the next: the first error wins, otherwise the names are concatenated. */
  function Then(first: Result<seq<string>>, rest: Result<seq<string>>): Result<seq<string>>
  {
    if first.Err? then first else Prepended(first.value, rest)
  }

  lemma {:induction false} ThenAssociative(x: Result<seq<string>>, y: Result<seq<string>>, z: Result<seq<string>>)
    ensures Then(x, Then(y, z)) == Then(Then(x, y), z)
  {
    if x.Ok? && y.Ok? && z.Ok? {
      assert x.value + (y.value + z.value) == (x.value + y.value) + z.value;
    }
  }

  /** The names the manifest at `path` yields. */
  function ParseFile(m: Manifests, path: string, depth: nat): Result<seq<string>>
    decreases depth, 0
  {
    if depth == 0 then Err(RecursionLimit)
    else if path !in m then Err(FileNotFound(path))
    else ParseLines(m, m[path], depth - 1)
  }

  /** The names one line yields; an include opens its target with the remaining depth. */
  function ParseLine(m: Manifests, raw: string, depth: nat): Result<seq<string>>
    decreases depth, 1, 0
  {
    match Classify(raw)
    case Blank => Ok([])
    case Include(None) => Err(MissingIncludePath(Strip(raw)))
    case Include(Some(target)) => ParseFile(m, target, depth)
    case Requirement(name) => Ok([name])
  }

  /** The names a sequence of lines yields, in line order; the first error stops the reading. */
  function ParseLines(m: Manifests, lines: seq<string>, depth: nat): Result<seq<string>>
    decreases depth, 1, |lines|
  {
    if lines == [] then Ok([])
    else Then(ParseLine(m, lines[0], depth), ParseLines(m, lines[1..], depth))
  }

  lemma {:induction false} PrependedNothing(r: Result<seq<string>>)
    ensures Prepended([], r) == r
  {
    if r.Ok? {
      assert [] + r.value == r.value;
    }
  }

  lemma {:induction false} PrependedThen(acc: seq<string>, first: Result<seq<string>>, rest: Result<seq<string>>)
    ensures Prepended(acc, Then(first, rest))
         == if first.Err? then first else Prepended(acc + first.value, rest)
  {
    if first.Ok? && rest.Ok? {
      assert acc + (first.value + rest.value) == (acc + first.value) + rest.value;
    }
  }

  /** `_get_hidden_imports_from_requirements(requirements_file)`. */
  method HiddenImportsFromRequirements(m: Manifests, path: string, depth: nat) returns (r: Result<seq<string>>)
    ensures r == ParseFile(m, path, depth)
    decreases depth, 0
  {
    if depth == 0 {
      return Err(RecursionLimit);
    }
    if path !in m {
      return Err(FileNotFound(path));
    }
    r := ReadRequirementLines(m, m[path], depth - 1);
  }

  /** The `for line in file` loop of `_get_hidden_imports_from_requirements`, over the lines of one open manifest. */
  method ReadRequirementLines(m: Manifests, lines: seq<string>, depth: nat) returns (r: Result<seq<string>>)
    ensures r == ParseLines(m, lines, depth)
    decreases depth, 1
  {
    var hiddenImports: seq<string> := [];
    var i := 0;
    assert lines[i..] == lines;
    PrependedNothing(ParseLines(m, lines, depth));
    while i < |lines|
      invariant 0 <= i <= |lines|
      invariant ReadSoFar(m, lines, i, depth, hiddenImports)
    {
      var line := Strip(lines[i]);
      if StartsWith(line, IncludeDirective) {
        var subRequirementsFile := SecondSpaceField(line);
        if subRequirementsFile.None? {
          MissingIncludeStep(m, lines, i, depth, hiddenImports);
          return Err(MissingIncludePath(line));
        }
        var nested := HiddenImportsFromRequirements(m, subRequirementsFile.value, depth);
        IncludeStep(m, lines, i, depth, hiddenImports, subRequirementsFile.value, nested);
        if nested.Err? {
          return nested;
        }
        hiddenImports := hiddenImports + nested.value;
      } else if line != [] {
        RequirementStep(m, lines, i, depth, hiddenImports);
        hiddenImports := hiddenImports + [BeforeFirst(line, VersionPin)];
      } else {
        BlankStep(m, lines, i, depth, hiddenImports);
      }
      i := i + 1;
    }
    assert lines[i..] == [];
    assert hiddenImports + [] == hiddenImports;
    return Ok(hiddenImports);
  }

  /** The names of `lines` are `acc` followed by those of the lines from `i` on. */
  ghost predicate ReadSoFar(m: Manifests, lines: seq<string>, i: nat, depth: nat, acc: seq<string>)
    requires i <= |lines|
  {
    ParseLines(m, lines, depth) == Prepended(acc, ParseLines(m, lines[i..], depth))
  }

  /** One more line read successfully: its names join those already collected. */
  lemma {:induction false} StepSucceeds(m: Manifests, lines: seq<string>, i: nat, depth: nat, acc: seq<string>, names: seq<string>)
    requires i < |lines| && ReadSoFar(m, lines, i, depth, acc)
    requires ParseLine(m, lines[i], depth) == Ok(names)
    ensures ReadSoFar(m, lines, i + 1, depth, acc + names)
  {
    assert lines[i..][0] == lines[i] && lines[i..][1..] == lines[i + 1..];
    PrependedThen(acc, Ok(names), ParseLines(m, lines[i + 1..], depth));
  }

  /** A line that fails ends the reading of the whole manifest with its error. */
  lemma {:induction false} StepFails(m: Manifests, lines: seq<string>, i: nat, depth: nat, acc: seq<string>)
    requires i < |lines| && ReadSoFar(m, lines, i, depth, acc)
    requires ParseLine(m, lines[i], depth).Err?
    ensures ParseLines(m, lines, depth) == ParseLine(m, lines[i], depth)
  {
    assert lines[i..][0] == lines[i];
  }

  lemma {:induction false} MissingIncludeStep(m: Manifests, lines: seq<string>, i: nat, depth: nat, acc: seq<string>)
    requires i < |lines| && ReadSoFar(m, lines, i, depth, acc)
    requires StartsWith(Strip(lines[i]), IncludeDirective) && SecondSpaceField(Strip(lines[i])).None?
    ensures ParseLines(m, lines, depth) == Err(MissingIncludePath(Strip(lines[i])))
  {
    StepFails(m, lines, i, depth, acc);
  }

  lemma {:induction false} IncludeStep(m: Manifests, lines: seq<string>, i: nat, depth: nat, acc: seq<string>, target: string,
                    nested: Result<seq<string>>)
    requires i < |lines| && ReadSoFar(m, lines, i, depth, acc)
    requires StartsWith(Strip(lines[i]), IncludeDirective) && SecondSpaceField(Strip(lines[i])) == Some(target)
    requires nested == ParseFile(m, target, depth)
    ensures nested.Err? ==> ParseLines(m, lines, depth) == nested
    ensures nested.Ok? ==> ReadSoFar(m, lines, i + 1, depth, acc + nested.value)
  {
    assert ParseLine(m, lines[i], depth) == nested;
    if nested.Err? {
      StepFails(m, lines, i, depth, acc);
    } else {
      StepSucceeds(m, lines, i, depth, acc, nested.value);
    }
  }

  lemma {:induction false} RequirementStep(m: Manifests, lines: seq<string>, i: nat, depth: nat, acc: seq<string>)
    requires i < |lines| && ReadSoFar(m, lines, i, depth, acc)
    requires !StartsWith(Strip(lines[i]), IncludeDirective) && Strip(lines[i]) != []
    ensures ReadSoFar(m, lines, i + 1, depth, acc + [BeforeFirst(Strip(lines[i]), VersionPin)])
  {
    StepSucceeds(m, lines, i, depth, acc, [BeforeFirst(Strip(lines[i]), VersionPin)]);
  }

  lemma {:induction false} BlankStep(m: Manifests, lines: seq<string>, i: nat, depth: nat, acc: seq<string>)
    requires i < |lines| && ReadSoFar(m, lines, i, depth, acc)
    requires !StartsWith(Strip(lines[i]), IncludeDirective) && Strip(lines[i]) == []
    ensures ReadSoFar(m, lines, i + 1, depth, acc)
  {
    StepSucceeds(m, lines, i, depth, acc, []);
    assert acc + [] == acc;
  }

  /** Reading `a + b` is reading `a`, then `b`. */
  lemma {:induction false} ParseLinesAppend(m: Manifests, a: seq<string>, b: seq<string>, depth: nat)
    ensures ParseLines(m, a + b, depth) == Then(ParseLines(m, a, depth), ParseLines(m, b, depth))
  {
    if a == [] {
      assert a + b == b;
      PrependedNothing(ParseLines(m, b, depth));
    } else {
      assert (a + b)[0] == a[0];
      assert (a + b)[1..] == a[1..] + b;
      ParseLinesAppend(m, a[1..], b, depth);
      ThenAssociative(ParseLine(m, a[0], depth), ParseLines(m, a[1..], depth), ParseLines(m, b, depth));
    }
  }

  /** A line of the form `-r <file>`, with no whitespace in the file name, includes that file. */
  lemma {:induction false} IncludeLine(target: string)
    requires target != [] && forall i :: 0 <= i < |target| ==> !IsSpace(target[i])
    ensures Classify("-r " + target) == Include(Some(target))
  {
    var s := "-r " + target;
    assert s[0] == '-' && s[|s| - 1] == target[|target| - 1];
    StripUnchanged(s);
    assert StartsWith(s, IncludeDirective);
    assert ' ' !in target by {
      assert IsSpace(' ');
    }
    SecondSpaceFieldOf(IncludeDirective, target);
  }

  /**
   * An included manifest's names appear exactly where its `-r` line stood,
   * between the names of the lines before and after it, in its own order.
   */
  lemma {:induction false} IncludeSplicedInPlace(m: Manifests, before: seq<string>, target: string, after: seq<string>, depth: nat)
    requires target != [] && forall i :: 0 <= i < |target| ==> !IsSpace(target[i])
    requires ParseLines(m, before, depth).Ok? && ParseFile(m, target, depth).Ok? && ParseLines(m, after, depth).Ok?
    ensures ParseLines(m, before + ["-r " + target] + after, depth)
         == Ok(ParseLines(m, before, depth).value + ParseFile(m, target, depth).value + ParseLines(m, after, depth).value)
  {
    IncludeLine(target);
    var line := "-r " + target;
    ParseLinesAppend(m, before, [line] + after, depth);
    assert before + [line] + after == before + ([line] + after);
    assert ([line] + after)[0] == line && ([line] + after)[1..] == after;
    ThenAssociative(ParseLines(m, before, depth), ParseFile(m, target, depth), ParseLines(m, after, depth));
  }

  /** The lines hold no `-r` directive. */
  ghost predicate NoIncludes(lines: seq<string>)
  {
    forall j :: 0 <= j < |lines| ==> !Classify(lines[j]).Include?
  }

  /**
   * A manifest without `-r` lines needs no other file and no further depth: it
   * always succeeds, whatever the other files are.
   */
  lemma {:induction false} NoIncludesNeedNoFiles(m: Manifests, lines: seq<string>, depth: nat)
    requires NoIncludes(lines)
    ensures ParseLines(m, lines, depth).Ok?
    ensures ParseLines(m, lines, depth) == ParseLines(map[], lines, 0)
  {
    if lines != [] {
      assert !Classify(lines[0]).Include?;
      assert NoIncludes(lines[1..]) by {
        forall j | 0 <= j < |lines| - 1 ensures !Classify(lines[1..][j]).Include? {
          assert lines[1..][j] == lines[j + 1];
        }
      }
      NoIncludesNeedNoFiles(m, lines[1..], depth);
    }
  }

  /**
   * With no cycle detection, a manifest that includes itself before any other
   * `-r` line never yields a result: every depth ends in `RecursionLimit`.
   */
  lemma {:induction false} SelfIncludeExhaustsDepth(m: Manifests, path: string, i: nat, depth: nat)
    requires path in m && i < |m[path]|
    requires Classify(m[path][i]) == Include(Some(path))
    requires NoIncludes(m[path][..i])
    ensures ParseFile(m, path, depth) == Err(RecursionLimit)
    decreases depth
  {
    if depth > 0 {
      var d := depth - 1;
      var lines := m[path];
      SelfIncludeExhaustsDepth(m, path, i, d);
      assert ParseLine(m, lines[i], d) == Err(RecursionLimit);
      assert lines[i..][0] == lines[i];
      assert ParseLines(m, lines[i..], d) == Err(RecursionLimit);
      assert lines == lines[..i] + lines[i..];
      ParseLinesAppend(m, lines[..i], lines[i..], d);
      NoIncludesNeedNoFiles(m, lines[..i], d);
      assert ParseFile(m, path, depth) == ParseLines(m, lines, d);
    }
  }

  /**
   * The depth bound only stops runaway recursion: once a manifest is read
   * successfully, more depth gives the same names.
   */
  lemma {:induction false} ParseFileDepthMonotone(m: Manifests, path: string, depth: nat)
    requires ParseFile(m, path, depth).Ok?
    ensures ParseFile(m, path, depth + 1) == ParseFile(m, path, depth)
    decreases depth, 0
  {
    ParseLinesDepthMonotone(m, m[path], depth - 1);
  }

  lemma {:induction false} ParseLinesDepthMonotone(m: Manifests, lines: seq<string>, depth: nat)
    requires ParseLines(m, lines, depth).Ok?
    ensures ParseLines(m, lines, depth + 1) == ParseLines(m, lines, depth)
    decreases depth, 1, |lines|
  {
    if lines != [] {
      match Classify(lines[0]) {
        case Include(Some(target)) =>
          ParseFileDepthMonotone(m, target, depth);
        case _ =>
      }
      ParseLinesDepthMonotone(m, lines[1..], depth);
    }
  }

  /**
   * A pinned requirement `name==version` names the package before its `==`,
   * e.g. "numpy==1.21" gives "numpy".
   */
  lemma {:induction false} PinnedRequirementLine(name: string, version: string)
    requires name != [] && !IsSpace(name[0]) && '=' !in name
    requires !StartsWith(name, IncludeDirective)
    requires version == [] || !IsSpace(version[|version| - 1])
    ensures Classify(name + VersionPin + version) == Requirement(name)
  {
    var line := name + VersionPin + version;
    assert line[0] == name[0];
    assert line[|line| - 1] == if version == [] then '=' else version[|version| - 1];
    StripUnchanged(line);
    assert !StartsWith(line, IncludeDirective) by {
      if |name| >= 2 {
        assert line[..2] == name[..2];
      } else {
        assert line[1] == '=';
      }
    }
    BeforeFirstOf(name, VersionPin, version);
  }

  /** An unpinned requirement, e.g. "requests", is the whole stripped line. */
  lemma {:induction false} PlainRequirementLine(name: string)
    requires name != [] && !IsSpace(name[0]) && !IsSpace(name[|name| - 1]) && '=' !in name
    requires !StartsWith(name, IncludeDirective)
    ensures Classify(name) == Requirement(name)
  {
    StripUnchanged(name);
    BeforeFirstNone(name, VersionPin);
  }
}
