/**
 * `os.path.splitext` as Python's `ntpath` implements it (the handler
 * targets Windows: it inspects `winerror`). Both `\` and `/` separate path
 * components; the extension starts at the last `.` of the last component,
 * unless every character before that dot in the component is itself a dot
 * (a leading-dot name such as `.gitignore` has no extension).
 */
module NtPath {

  predicate IsSeparator(c: char) {
    c == '\\' || c == '/'
  }

  /** Index of the last separator in `p`, or -1 when there is none. */
  function LastSeparator(p: string): (i: int)
    ensures -1 <= i < |p|
    ensures i >= 0 ==> IsSeparator(p[i])
    ensures forall j :: i < j < |p| ==> !IsSeparator(p[j])
  {
    if p == [] then -1
    else if IsSeparator(p[|p| - 1]) then |p| - 1
    else LastSeparator(p[..|p| - 1])
  }

  /** Index of the last dot in `p`, or -1 when there is none. */
  function LastDot(p: string): (i: int)
    ensures -1 <= i < |p|
    ensures i >= 0 ==> p[i] == '.'
    ensures forall j :: i < j < |p| ==> p[j] != '.'
  {
    if p == [] then -1
    else if p[|p| - 1] == '.' then |p| - 1
    else LastDot(p[..|p| - 1])
  }

  predicate AllDots(s: string) {
    forall i :: 0 <= i < |s| ==> s[i] == '.'
  }

  /** What `splitext` can return as an extension: a dot, then neither dots nor separators. */
  predicate IsExtension(e: string) {
    |e| > 0 && e[0] == '.' && forall i :: 1 <= i < |e| ==> e[i] != '.' && !IsSeparator(e[i])
  }

  /** A name with no dot and no separator in it, such as a decimal numeral. */
  predicate IsPlainName(s: string) {
    |s| > 0 && forall i :: 0 <= i < |s| ==> s[i] != '.' && !IsSeparator(s[i])
  }

  /** The last component of `p` has a dot with a non-dot character somewhere before it. */
  predicate HasExtension(p: string) {
    exists i, j :: LastSeparator(p) < i < j < |p| && p[i] != '.' && p[j] == '.'
  }

  /** The test `splitext` makes on the last component: its last dot has a non-dot before it. */
  predicate SplitsAtLastDot(p: string) {
    LastDot(p) > LastSeparator(p) && !AllDots(p[LastSeparator(p) + 1..LastDot(p)])
  }

  /** A non-dot character followed by a dot in the last component puts a non-dot before its last dot. */
  lemma NonDotBeforeLastDot(p: string, i: int, j: int)
    requires LastSeparator(p) < i < j < |p| && p[i] != '.' && p[j] == '.'
    ensures SplitsAtLastDot(p)
  {
    var sepIndex, dotIndex := LastSeparator(p), LastDot(p);
    assert j <= dotIndex;
    var component := p[sepIndex + 1..dotIndex];
    assert component[i - sepIndex - 1] == p[i];
  }

  /** A non-dot character between the last separator and the last dot witnesses `HasExtension`. */
  lemma NonDotWitnessesExtension(p: string, i: int)
    requires LastSeparator(p) < i < LastDot(p) && p[i] != '.'
    ensures HasExtension(p)
  {
    assert p[LastDot(p)] == '.';
  }

  /** A slice that is not all dots has a non-dot at some index of `p` inside the slice. */
  lemma NonDotInSlice(p: string, lo: int, hi: int) returns (i: int)
    requires 0 <= lo <= hi <= |p| && !AllDots(p[lo..hi])
    ensures lo <= i < hi && p[i] != '.'
  {
    var k :| 0 <= k < hi - lo && p[lo..hi][k] != '.';
    i := lo + k;
  }

  /** Conversely, a non-dot before the last dot of the last component gives `HasExtension`. */
  lemma LastDotGivesExtension(p: string)
    requires SplitsAtLastDot(p)
    ensures HasExtension(p)
  {
    var i := NonDotInSlice(p, LastSeparator(p) + 1, LastDot(p));
    NonDotWitnessesExtension(p, i);
  }

  /** The test `splitext` makes, restated: a non-dot character before the last dot of the last component. */
  lemma HasExtensionIff(p: string)
    ensures HasExtension(p) <==> SplitsAtLastDot(p)
  {
    if HasExtension(p) {
      var i, j :| LastSeparator(p) < i < j < |p| && p[i] != '.' && p[j] == '.';
      NonDotBeforeLastDot(p, i, j);
    }
    if SplitsAtLastDot(p) {
      LastDotGivesExtension(p);
    }
  }

  /** Splitting at the last dot of the last component loses nothing and leaves an extension. */
  lemma SplitAtLastDot(p: string)
    requires SplitsAtLastDot(p)
    ensures p[..LastDot(p)] + p[LastDot(p)..] == p
    ensures IsExtension(p[LastDot(p)..])
  {
    var dotIndex := LastDot(p);
    var e := p[dotIndex..];
    forall i | 1 <= i < |e| ensures e[i] != '.' && !IsSeparator(e[i]) {
      assert e[i] == p[dotIndex + i];
    }
  }

  /** `os.path.splitext(p)`: the pair (root, extension). The extension is not empty exactly
      when the last component has a non-dot character before its last dot, and then it starts
      at that last dot. */
  function SplitExt(p: string): (r: (string, string))
    ensures r.0 + r.1 == p
    ensures r.1 == [] || IsExtension(r.1)
    ensures r.1 != [] <==> HasExtension(p)
    ensures r.1 != [] ==> |r.0| == LastDot(p)
  {
    HasExtensionIff(p);
    if SplitsAtLastDot(p) then
      SplitAtLastDot(p);
      (p[..LastDot(p)], p[LastDot(p)..])
    else
      (p, [])
  }

  /** The root of a name, with its extension stripped. */
  function Stem(p: string): string {
    SplitExt(p).0
  }

  /** The extension of a name, possibly empty. */
  function Extension(p: string): string {
    SplitExt(p).1
  }

  /** Splitting a plain name followed by an extension gives both back unchanged. */
  lemma SplitExtOfPlainName(s: string, ext: string)
    requires IsPlainName(s)
    requires ext == [] || IsExtension(ext)
    ensures SplitExt(s + ext) == (s, ext)
  {
    var p := s + ext;
    forall j | 0 <= j < |p| ensures !IsSeparator(p[j]) {
      if j < |s| { assert p[j] == s[j]; } else { assert p[j] == ext[j - |s|]; }
    }
    assert LastSeparator(p) == -1;
    if ext == [] {
      assert p == s;
      assert LastDot(p) == -1;
    } else {
      forall j | |s| < j < |p| ensures p[j] != '.' {
        assert p[j] == ext[j - |s|];
      }
      assert p[|s|] == ext[0];
      assert LastDot(p) == |s|;
      assert p[0] == s[0];
      assert p[..|s|] == s;
      assert p[|s|..] == ext;
    }
  }

  /** A component made of one leading dot and no other dot (`.bashrc`) has no extension. */
  lemma LeadingDotIsNotExtension(p: string)
    requires |p| > 0 && p[0] == '.'
    requires forall i :: 1 <= i < |p| ==> p[i] != '.'
    ensures SplitExt(p) == (p, [])
  {
    assert LastDot(p) == 0;
  }

  /** The extension is taken only from the last component: dots in directory names do not count. */
  lemma ExtensionOnlyFromLastComponent(dir: string, name: string)
    requires forall i :: 0 <= i < |name| ==> name[i] != '.'
    ensures SplitExt(dir + "\\" + name) == (dir + "\\" + name, [])
  {
    var p := dir + "\\" + name;
    assert p[|dir|] == '\\';
    forall j | |dir| < j < |p| ensures p[j] != '.' {
      assert p[j] == name[j - |dir| - 1];
    }
    assert LastSeparator(p) >= |dir|;
    assert LastDot(p) < LastSeparator(p);
  }
}
