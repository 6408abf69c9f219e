/**
 * The parts of Python's `str` methods and of `os.path` (POSIX flavour) that the
 * build helper relies on, over `string` = `seq<char>`.
 */
module PathText {

  import opened Wrappers

  /** Concatenation regrouped; stated once so that proofs need not rediscover it. */
  lemma AppendAssociative<T>(x: seq<T>, y: seq<T>, z: seq<T>)
    ensures x + y + z == x + (y + z)
  {
  }

  /** `os.sep` on POSIX. */
  const Sep: char := '/'

  predicate StartsWith(s: string, prefix: string)
  {
    prefix <= s
  }

  predicate EndsWith(s: string, suffix: string)
  {
    |suffix| <= |s| && s[|s| - |suffix|..] == suffix
  }

  /** `pat` occurs in `s` starting at index `i`. */
  ghost predicate OccursAt(s: string, pat: string, i: nat)
  {
    i + |pat| <= |s| && s[i..i + |pat|] == pat
  }

  ghost predicate Occurs(s: string, pat: string)
  {
    exists i: nat :: OccursAt(s, pat, i)
  }

  lemma {:induction false} OccursShift(s: string, pat: string)
    requires s != []
    ensures forall j: nat :: OccursAt(s[1..], pat, j) <==> OccursAt(s, pat, j + 1)
  {
    forall j: nat
      ensures OccursAt(s[1..], pat, j) <==> OccursAt(s, pat, j + 1)
    {
      if j + 1 + |pat| <= |s| {
        assert s[1..][j..j + |pat|] == s[j + 1..j + 1 + |pat|];
      }
    }
  }

  lemma {:induction false} OccursAtChar(s: string, c: char, j: nat)
    ensures OccursAt(s, [c], j) <==> j < |s| && s[j] == c
  {
    if j < |s| {
      assert s[j..j + 1] == [s[j]];
    }
  }

  /* ---------------------------------------------------------------------- */
  /* str.replace                                                             */

  /**
   * `s.replace(pat, rep)`: every occurrence of `pat`, found left to right
   * without overlap, is replaced by `rep`.
   */
  function ReplaceAll(s: string, pat: string, rep: string): string
    requires pat != []
    decreases |s|
  {
    if |s| < |pat| then s
    else if pat <= s then rep + ReplaceAll(s[|pat|..], pat, rep)
    else [s[0]] + ReplaceAll(s[1..], pat, rep)
  }

  /** Replacing one character by another keeps the length and changes exactly the matching positions. */
  lemma {:induction false} ReplaceCharAt(s: string, c: char, d: char)
    ensures |ReplaceAll(s, [c], [d])| == |s|
    ensures forall i :: 0 <= i < |s| ==> ReplaceAll(s, [c], [d])[i] == if s[i] == c then d else s[i]
    decreases |s|
  {
    if s != [] {
      ReplaceCharAt(s[1..], c, d);
      assert [c] <= s <==> s[0] == c;
    }
  }

  /** `.replace(os.sep, ".")`, as used for module names. */
  function SepToDot(s: string): (r: string)
  {
    ReplaceAll(s, [Sep], ".")
  }

  lemma {:induction false} SepToDotAt(s: string)
    ensures |SepToDot(s)| == |s|
    ensures forall i :: 0 <= i < |s| ==> SepToDot(s)[i] == if s[i] == Sep then '.' else s[i]
    ensures Sep !in SepToDot(s)
  {
    ReplaceCharAt(s, Sep, '.');
  }

  const PySuffix: string := ".py"

  /**
   * Deleting every ".py" from `q + ".py" + t`, where `q` holds no ".py",
   * keeps `q` and goes on deleting in `t` (".py" cannot overlap itself, so no
   * occurrence straddles the end of `q`).
   */
  lemma {:induction false} DeletePyAfter(q: string, t: string)
    requires !Occurs(q, PySuffix)
    ensures ReplaceAll(q + PySuffix + t, PySuffix, "") == q + ReplaceAll(t, PySuffix, "")
    decreases |q|
  {
    var s := q + PySuffix + t;
    if q == [] {
      assert s == PySuffix + t;
      assert s[3..] == t;
    } else {
      assert !(PySuffix <= s) by {
        if |q| >= 3 {
          assert !OccursAt(q, PySuffix, 0);
          assert q[0..3] == s[0..3];
        } else if |q| == 1 {
          assert s[1] == '.';
        } else {
          assert s[2] == '.';
        }
      }
      assert !Occurs(q[1..], PySuffix) by {
        OccursShift(q, PySuffix);
      }
      assert s[1..] == q[1..] + PySuffix + t;
      DeletePyAfter(q[1..], t);
      assert [q[0]] + (q[1..] + ReplaceAll(t, PySuffix, "")) == q + ReplaceAll(t, PySuffix, "");
    }
  }

  /** A path whose only ".py" is its final suffix loses exactly that suffix. */
  lemma {:induction false} DeletePySuffix(q: string)
    requires !Occurs(q, PySuffix)
    ensures ReplaceAll(q + PySuffix, PySuffix, "") == q
  {
    DeletePyAfter(q, "");
    assert q + PySuffix + "" == q + PySuffix;
    assert q + "" == q;
  }

  /* ---------------------------------------------------------------------- */
  /* str.rfind, str.split(pat)[0], str.split(" ")[1]                         */

  /** `s.rfind(c)`: the index of the last `c` in `s`, or -1. */
  function LastIndexOf(s: string, c: char): (i: int)
    ensures -1 <= i < |s|
    ensures i >= 0 ==> s[i] == c
    ensures forall j :: i < j < |s| ==> s[j] != c
  {
    if s == [] then -1
    else if s[|s| - 1] == c then |s| - 1
    else LastIndexOf(s[..|s| - 1], c)
  }

  /** Text appended after the last `c` does not move it. */
  lemma {:induction false} LastIndexOfAppend(a: string, b: string, c: char)
    requires c !in b
    ensures LastIndexOf(a + b, c) == LastIndexOf(a, c)
    decreases |b|
  {
    if b != [] {
      var n := |b| - 1;
      assert (a + b)[..|a + b| - 1] == a + b[..n];
      LastIndexOfAppend(a, b[..n], c);
    } else {
      assert a + b == a;
    }
  }

  /**
   * `s.split(pat)[0]`: the text before the first occurrence of `pat`, or all
   * of `s` when `pat` does not occur.
   */
  function BeforeFirst(s: string, pat: string): (r: string)
    requires pat != []
    ensures r <= s
    ensures r == s || OccursAt(s, pat, |r|)
    ensures forall j: nat :: j < |r| ==> !OccursAt(s, pat, j)
    decreases |s|
  {
    if |s| < |pat| then s
    else if pat <= s then []
    else
      OccursShift(s, pat);
      assert !OccursAt(s, pat, 0);
      var rest := BeforeFirst(s[1..], pat);
      assert forall j: nat :: 0 < j <= |rest| ==> !OccursAt(s, pat, j) by {
        forall j: nat | 0 < j <= |rest| ensures !OccursAt(s, pat, j) {
          assert !OccursAt(s[1..], pat, j - 1);
        }
      }
      assert rest != s[1..] ==> OccursAt(s, pat, |rest| + 1) by {
        if rest != s[1..] {
          assert OccursAt(s[1..], pat, |rest|);
        }
      }
      [s[0]] + rest
  }

  lemma {:induction false} BeforeFirstHasNoPattern(s: string, pat: string)
    requires pat != []
    ensures !Occurs(BeforeFirst(s, pat), pat)
  {
    var r := BeforeFirst(s, pat);
    forall j: nat | j + |pat| <= |r| ensures !OccursAt(r, pat, j) {
      assert s[j..j + |pat|] == r[j..j + |pat|];
      assert !OccursAt(s, pat, j);
    }
  }

  /** If `c` does not occur, the whole string comes before it. */
  lemma {:induction false} BeforeFirstAbsent(s: string, c: char)
    requires c !in s
    ensures BeforeFirst(s, [c]) == s
  {
    var r := BeforeFirst(s, [c]);
    if r != s {
      OccursAtChar(s, c, |r|);
    }
  }

  /** The text before the first `c` holds no `c`, and is followed by a `c` unless it is all of `s`. */
  lemma {:induction false} BeforeFirstChar(s: string, c: char)
    ensures c !in BeforeFirst(s, [c])
    ensures BeforeFirst(s, [c]) != s ==> |BeforeFirst(s, [c])| < |s| && s[|BeforeFirst(s, [c])|] == c
  {
    var r := BeforeFirst(s, [c]);
    forall j | 0 <= j < |r| ensures r[j] != c {
      OccursAtChar(s, c, j);
    }
    if r != s {
      OccursAtChar(s, c, |r|);
    }
  }

  /**
   * `s.split(" ")[1]`, or None where Python raises IndexError: the field
   * between the first and the second space (or the end).
   */
  function SecondSpaceField(s: string): (r: Option<string>)
    ensures r.None? <==> ' ' !in s
    ensures r.Some? ==> ' ' !in r.value
    ensures r.Some? ==> exists i ::
      && 0 <= i < |s| && s[i] == ' ' && ' ' !in s[..i]
      && r.value <= s[i + 1..]
      && (i + 1 + |r.value| == |s| || s[i + 1 + |r.value|] == ' ')
  {
    var first := BeforeFirst(s, " ");
    BeforeFirstChar(s, ' ');
    if first == s then
      None
    else
      var i := |first|;
      assert s[..i] == first;
      var rest := s[i + 1..];
      var field := BeforeFirst(rest, " ");
      BeforeFirstChar(rest, ' ');
      Some(field)
  }


  /** The text before the first `pat` is the part before a `pat` whose first character it lacks. */
  lemma {:induction false} BeforeFirstOf(a: string, pat: string, b: string)
    requires pat != [] && pat[0] !in a
    ensures BeforeFirst(a + pat + b, pat) == a
  {
    var s := a + pat + b;
    assert OccursAt(s, pat, |a|) by {
      assert s[|a|..|a| + |pat|] == pat;
    }
    forall j: nat | j < |a|
      ensures !OccursAt(s, pat, j)
    {
      assert s[j] == a[j];
      if j + |pat| <= |s| {
        assert s[j..j + |pat|][0] == s[j];
      }
    }
    assert |BeforeFirst(s, pat)| == |a|;
  }

  /** A text lacking the first character of `pat` is its own part before `pat`. */
  lemma {:induction false} BeforeFirstNone(s: string, pat: string)
    requires pat != [] && pat[0] !in s
    ensures BeforeFirst(s, pat) == s
  {
    forall j: nat | j + |pat| <= |s|
      ensures !OccursAt(s, pat, j)
    {
      assert s[j..j + |pat|][0] == s[j];
    }
  }

  /** With one space between two space-free words, `split(" ")[1]` is the second word. */
  lemma {:induction false} SecondSpaceFieldOf(a: string, b: string)
    requires ' ' !in a && ' ' !in b
    ensures SecondSpaceField(a + " " + b) == Some(b)
  {
    var s := a + " " + b;
    BeforeFirstOf(a, " ", b);
    assert s[|a| + 1..] == b;
    BeforeFirstAbsent(b, ' ');
  }

  /* ---------------------------------------------------------------------- */
  /* str.strip                                                               */

  /** `str.isspace` for one character (Python's full whitespace set). */
  predicate IsSpace(c: char)
  {
    || c == ' ' || ('\t' <= c <= '\r') || ('\U{1C}' <= c <= '\U{1F}')
    || c == '\U{85}' || c == '\U{A0}' || c == '\U{1680}'
    || ('\U{2000}' <= c <= '\U{200A}') || c == '\U{2028}' || c == '\U{2029}'
    || c == '\U{202F}' || c == '\U{205F}' || c == '\U{3000}'
  }

  /** `s.lstrip()`. */
  function TrimLeadingSpace(s: string): string
  {
    if s != [] && IsSpace(s[0]) then TrimLeadingSpace(s[1..]) else s
  }

  /** `s.rstrip()`. */
  function TrimTrailingSpace(s: string): string
  {
    if s != [] && IsSpace(s[|s| - 1]) then TrimTrailingSpace(s[..|s| - 1]) else s
  }

  /** `s.strip()`: whitespace removed from both ends. */
  function Strip(s: string): string
  {
    TrimTrailingSpace(TrimLeadingSpace(s))
  }

  /** `lstrip` removes a prefix of whitespace and stops at the first other character. */
  lemma {:induction false} TrimLeadingSpaceMeaning(s: string)
    ensures |TrimLeadingSpace(s)| <= |s| && TrimLeadingSpace(s) == s[|s| - |TrimLeadingSpace(s)|..]
    ensures TrimLeadingSpace(s) == [] || !IsSpace(TrimLeadingSpace(s)[0])
    ensures forall i :: 0 <= i < |s| - |TrimLeadingSpace(s)| ==> IsSpace(s[i])
  {
    if s != [] && IsSpace(s[0]) {
      TrimLeadingSpaceMeaning(s[1..]);
      var r := TrimLeadingSpace(s[1..]);
      assert s[|s| - |r|..] == s[1..][|s| - 1 - |r|..];
      forall i | 0 <= i < |s| - |r| ensures IsSpace(s[i]) {
        if i > 0 {
          assert s[i] == s[1..][i - 1];
        }
      }
    }
  }

  /** `rstrip` removes a suffix of whitespace and stops at the last other character. */
  lemma {:induction false} TrimTrailingSpaceMeaning(s: string)
    ensures TrimTrailingSpace(s) <= s
    ensures TrimTrailingSpace(s) == [] || !IsSpace(TrimTrailingSpace(s)[|TrimTrailingSpace(s)| - 1])
    ensures forall i :: |TrimTrailingSpace(s)| <= i < |s| ==> IsSpace(s[i])
  {
    if s != [] && IsSpace(s[|s| - 1]) {
      TrimTrailingSpaceMeaning(s[..|s| - 1]);
      var r := TrimTrailingSpace(s[..|s| - 1]);
      forall i | |r| <= i < |s| ensures IsSpace(s[i]) {
        if i < |s| - 1 {
          assert s[i] == s[..|s| - 1][i];
        }
      }
    }
  }

  /**
   * `strip` yields the empty string exactly for all-whitespace input, and
   * otherwise a slice of the input bounded by non-whitespace characters.
   */
  lemma {:induction false} StripMeaning(s: string)
    ensures Strip(s) == [] <==> forall i :: 0 <= i < |s| ==> IsSpace(s[i])
    ensures Strip(s) != [] ==> !IsSpace(Strip(s)[0]) && !IsSpace(Strip(s)[|Strip(s)| - 1])
    ensures var k := |s| - |TrimLeadingSpace(s)|;
      && 0 <= k && k + |Strip(s)| <= |s| && Strip(s) == s[k..k + |Strip(s)|]
      && (forall i :: 0 <= i < k ==> IsSpace(s[i]))
      && (forall i :: k + |Strip(s)| <= i < |s| ==> IsSpace(s[i]))
  {
    var left := TrimLeadingSpace(s);
    var r := TrimTrailingSpace(left);
    TrimLeadingSpaceMeaning(s);
    TrimTrailingSpaceMeaning(left);
    var k := |s| - |left|;
    assert r == left[..|r|];
    assert s[k..k + |r|] == left[..|r|];
    forall i | k + |r| <= i < |s| ensures IsSpace(s[i]) {
      assert s[i] == left[i - k];
    }
    if r == [] {
      assert left == [];
    } else {
      assert s[|s| - |left|] == left[0] == r[0];
    }
  }

  /** A string that neither starts nor ends with whitespace is its own strip. */
  lemma {:induction false} StripUnchanged(s: string)
    requires s != [] && !IsSpace(s[0]) && !IsSpace(s[|s| - 1])
    ensures Strip(s) == s
  {
  }

  /* ---------------------------------------------------------------------- */
  /* os.path                                                                 */

  /** `s.rstrip(c)`. */
  function TrimTrailingChar(s: string, c: char): (r: string)
    ensures r <= s
    ensures r == [] || r[|r| - 1] != c
    ensures forall i :: |r| <= i < |s| ==> s[i] == c
  {
    if s != [] && s[|s| - 1] == c then TrimTrailingChar(s[..|s| - 1], c) else s
  }

  /** `os.path.basename`: everything after the last separator. */
  function BaseName(p: string): (r: string)
    ensures Sep !in r
    ensures EndsWith(p, r)
    ensures |r| < |p| ==> p[|p| - |r| - 1] == Sep
  {
    p[LastIndexOf(p, Sep) + 1..]
  }

  /** The base name of a separator-free name placed at the root or after a directory ending in a separator is that name. */
  lemma {:induction false} BaseNameAfterDir(dir: string, name: string)
    requires dir == [] || EndsWith(dir, [Sep])
    requires Sep !in name
    ensures BaseName(dir + name) == name
  {
    if dir == [] {
      assert dir + name == name;
      assert LastIndexOf(name, Sep) == -1;
    } else {
      LastIndexOfAppend(dir, name, Sep);
      assert dir[|dir| - 1..] == [Sep];
      assert LastIndexOf(dir, Sep) == |dir| - 1;
      assert (dir + name)[|dir|..] == name;
    }
  }

  /**
   * `os.path.dirname`: everything up to the last separator, with trailing
   * separators removed unless the head is made of separators only.
   */
  function DirName(p: string): string
  {
    var head := p[..LastIndexOf(p, Sep) + 1];
    var trimmed := TrimTrailingChar(head, Sep);
    if trimmed != [] then trimmed else head
  }

  /** When the last separator is not part of a run of separators, the directory part stops just before it. */
  lemma {:induction false} DirNameBeforeLastSep(p: string, k: int)
    requires k == LastIndexOf(p, Sep) && k > 0 && p[k - 1] != Sep
    ensures DirName(p) == p[..k]
  {
    var head := p[..k + 1];
    assert head[k - 1] != Sep && head[k] == Sep;
    var t := TrimTrailingChar(head, Sep);
    assert |t| == k by {
      assert |t| < k + 1;
      assert |t| >= k;
    }
    assert t == p[..k];
  }

  /** `os.path.join(a, b)` for two components. */
  function Join(a: string, b: string): string
  {
    if StartsWith(b, [Sep]) then b
    else if a == [] || EndsWith(a, [Sep]) then a + b
    else a + [Sep] + b
  }

  /**
   * An absolute second component replaces the first. Otherwise the result is
   * the first component, one separator if it does not already end in one (and
   * is not empty), then the second component.
   */
  lemma {:induction false} JoinMeaning(a: string, b: string)
    ensures EndsWith(Join(a, b), b)
    ensures StartsWith(b, [Sep]) ==> Join(a, b) == b
    ensures !StartsWith(b, [Sep]) ==> a <= Join(a, b) && |Join(a, b)| <= |a| + 1 + |b|
    ensures !StartsWith(b, [Sep]) && a != [] ==> Join(a, b)[|Join(a, b)| - |b| - 1] == Sep
    ensures !StartsWith(b, [Sep]) && a != [] && !EndsWith(a, [Sep]) ==> Join(a, b) == a + [Sep] + b
    ensures StartsWith(a, [Sep]) || StartsWith(b, [Sep]) ==> StartsWith(Join(a, b), [Sep])
  {
    var j := Join(a, b);
    if !StartsWith(b, [Sep]) {
      if a == [] || EndsWith(a, [Sep]) {
        assert j[|j| - |b|..] == b;
        if a != [] {
          assert j[|a| - 1] == a[|a| - 1] == a[|a| - 1..][0];
        }
      } else {
        assert j[|j| - |b|..] == b;
        assert j[|a|] == Sep;
      }
      if a != [] {
        assert j[0] == a[0];
      }
    }
  }

  /** The last path component of `q` holds a character other than '.'. */
  predicate HasStem(q: string)
  {
    exists k :: LastIndexOf(q, Sep) < k < |q| && q[k] != '.'
  }

  /**
   * `os.path.splitext(p)[0]`: `p` without the text from its last '.', when
   * that dot is in the last component and is not part of that component's
   * leading dots.
   */
  function SplitExtRoot(p: string): (root: string)
    ensures root <= p
    ensures root != p ==> p[|root|] == '.' && forall j :: |root| < j < |p| ==> p[j] != '.' && p[j] != Sep
  {
    var sepIndex := LastIndexOf(p, Sep);
    var dotIndex := LastIndexOf(p, '.');
    if dotIndex > sepIndex && exists k :: sepIndex < k < dotIndex && p[k] != '.' then p[..dotIndex] else p
  }

  /** splitext removes exactly one extension that holds no dot and no separator. */
  lemma {:induction false} SplitExtRootOf(q: string, ext: string)
    requires HasStem(q) && '.' !in ext && Sep !in ext
    ensures SplitExtRoot(q + "." + ext) == q
  {
    var p := q + "." + ext;
    LastIndexOfAppend(q + ".", ext, '.');
    assert LastIndexOf(q + ".", '.') == |q|;
    assert q + "." + ext == q + ("." + ext);
    LastIndexOfAppend(q, "." + ext, Sep);
    var k :| LastIndexOf(q, Sep) < k < |q| && q[k] != '.';
    assert p[k] != '.';
    assert p[..|q|] == q;
  }
}
