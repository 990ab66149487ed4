/** POSIX path helpers as Python computes them: `os.path.basename`, and
    pathlib's `name`, `suffix` and `stem`. */
module Paths {
  import opened Strings

  /** Index of the last occurrence of `c` in `s`, or -1 (Python's `str.rfind`). */
  function RFind(s: string, c: char): (r: int)
    ensures -1 <= r < |s|
    ensures r >= 0 ==> s[r] == c
    ensures forall j :: r < j < |s| ==> s[j] != c
    decreases |s|
  {
    if s == [] then -1
    else if s[|s| - 1] == c then |s| - 1
    else RFind(s[..|s| - 1], c)
  }

  /** `os.path.basename(p)`: everything after the last '/'. */
  function BaseName(p: string): (r: string)
    ensures '/' !in r
    ensures |r| <= |p| && r == p[|p| - |r|..]
  {
    var i := RFind(p, '/');
    p[i + 1..]
  }

  /** The components pathlib keeps: empty pieces and "." are dropped. */
  function Components(pieces: seq<string>): (r: seq<string>)
    ensures forall i :: 0 <= i < |r| ==> r[i] != "" && r[i] != "."
    ensures forall i :: 0 <= i < |r| ==> r[i] in pieces
    decreases |pieces|
  {
    if pieces == [] then []
    else
      var rest := Components(pieces[1..]);
      if pieces[0] == "" || pieces[0] == "." then rest else [pieces[0]] + rest
  }

  /** pathlib's `PurePosixPath(p).name`: the last component, or "" when there is none. */
  function PathName(p: string): (r: string)
    ensures '/' !in r
  {
    var cs := Components(Split(p, '/'));
    if cs == [] then "" else cs[|cs| - 1]
  }

  /** Position of the suffix dot in a path name, or -1 when the name has no
      suffix: pathlib ignores a leading dot and a trailing dot. */
  function SuffixDot(name: string): (r: int)
    ensures r == -1 || (0 < r < |name| - 1 && name[r] == '.')
  {
    var i := RFind(name, '.');
    if 0 < i < |name| - 1 then i else -1
  }

  /** pathlib's `suffix`: from the suffix dot to the end, or "". */
  function Suffix(p: string): (r: string)
  {
    var name := PathName(p);
    var i := SuffixDot(name);
    if i < 0 then "" else name[i..]
  }

  /** pathlib's `stem`: the name without its suffix. */
  function Stem(p: string): (r: string)
  {
    var name := PathName(p);
    var i := SuffixDot(name);
    if i < 0 then name else name[..i]
  }

  /** Stem and suffix split the name; a non-empty suffix starts with '.'
      and contains no other '.'. */
  lemma StemSuffixSplitName(p: string)
    ensures Stem(p) + Suffix(p) == PathName(p)
    ensures Suffix(p) == "" || (Suffix(p)[0] == '.' && '.' !in Suffix(p)[1..] && |Suffix(p)| >= 2)
  {
    var name := PathName(p);
    var i := SuffixDot(name);
    if i >= 0 {
      assert name[..i] + name[i..] == name;
      var suf := name[i..];
      forall j | 0 <= j < |suf| - 1 ensures suf[1..][j] != '.' {
        assert suf[1..][j] == name[i + 1 + j];
      }
    }
  }
}
