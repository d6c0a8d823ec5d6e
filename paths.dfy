/** POSIX path helpers used by the asset cache, the LoRA list construction
    and the settings store: `os.path.join` of two components and
    `os.path.splitext`, as the POSIX flavour of Python's library defines them. */
module Paths {

  const Sep: char := '/'
  const ExtSep: char := '.'

  /** Index of the last occurrence of `c` in `s`, or -1 (Python's `str.rfind`). */
  function LastIndexOf(s: string, c: char): (r: int)
    ensures -1 <= r < |s|
    ensures r >= 0 ==> s[r] == c
    ensures forall i :: r < i < |s| ==> s[i] != c
  {
    if |s| == 0 then -1
    else if s[|s| - 1] == c then |s| - 1
    else LastIndexOf(s[..|s| - 1], c)
  }

  /** `os.path.join(dir, name)`: an absolute `name` replaces `dir`; otherwise a
      separator is inserted unless `dir` is empty or already ends with one. */
  function Join(dir: string, name: string): (r: string)
    ensures |name| > 0 && name[0] == Sep ==> r == name
    ensures !(|name| > 0 && name[0] == Sep) ==>
              |dir| + |name| <= |r| && r[..|dir|] == dir && r[|r| - |name|..] == name
    ensures !(|name| > 0 && name[0] == Sep) && |dir| > 0 && dir[|dir| - 1] != Sep ==>
              |r| == |dir| + 1 + |name| && r[|dir|] == Sep
    ensures !(|name| > 0 && name[0] == Sep) && (|dir| == 0 || dir[|dir| - 1] == Sep) ==> r == dir + name
  {
    if |name| > 0 && name[0] == Sep then name
    else if |dir| == 0 || dir[|dir| - 1] == Sep then dir + name
    else dir + [Sep] + name
  }

  /** True when some character of `p[from..to]` is not a dot. */
  predicate HasNonDot(p: string, from: int, to: int)
    requires 0 <= from && to <= |p|
  {
    exists k :: from <= k < to && p[k] != ExtSep
  }

  /** The last dot of `p` lies in its last path component, after at least
      one character of that component that is not a dot. */
  predicate HasExtension(p: string)
  {
    var sepIndex := LastIndexOf(p, Sep);
    var dotIndex := LastIndexOf(p, ExtSep);
    dotIndex > sepIndex && HasNonDot(p, sepIndex + 1, dotIndex)
  }

  /** `os.path.splitext(p)`: splits at the last dot of the last path component,
      provided that dot is not part of the component's run of leading dots. */
  function SplitExt(p: string): (r: (string, string))
    ensures r.0 + r.1 == p
    ensures r.1 == [] || r.1[0] == ExtSep
    ensures forall i :: 0 < i < |r.1| ==> r.1[i] != ExtSep && r.1[i] != Sep
    ensures r.1 != [] ==> HasNonDot(r.0, LastIndexOf(r.0, Sep) + 1, |r.0|)
    ensures r.1 != [] <==> HasExtension(p)
    ensures r.1 != [] ==> |r.0| == LastIndexOf(p, ExtSep)
  {
    var sepIndex := LastIndexOf(p, Sep);
    var dotIndex := LastIndexOf(p, ExtSep);
    if HasExtension(p) then
      assert LastIndexOf(p[..dotIndex], Sep) == sepIndex by {
        LastIndexOfPrefix(p, Sep, dotIndex);
      }
      (p[..dotIndex], p[dotIndex..])
    else
      (p, [])
  }

  /** Cutting `s` after its last `c`-free stretch keeps the last `c`. */
  lemma {:induction false} LastIndexOfPrefix(s: string, c: char, n: nat)
    requires n <= |s|
    requires LastIndexOf(s, c) < n
    ensures LastIndexOf(s[..n], c) == LastIndexOf(s, c)
    decreases |s|
  {
    if n < |s| {
      assert s[|s| - 1] != c;
      assert s[..|s| - 1][..n] == s[..n];
      LastIndexOfPrefix(s[..|s| - 1], c, n);
    } else {
      assert s[..n] == s;
    }
  }

  /** The name a LoRA file is registered under: its file name without extension. */
  function StripExtension(name: string): (r: string)
    ensures |r| <= |name| && name[..|r|] == r
    ensures r == name <==> !HasExtension(name)
    ensures r != name ==>
              |r| == LastIndexOf(name, ExtSep) && name[|r|] == ExtSep
              && forall i :: |r| < i < |name| ==> name[i] != ExtSep && name[i] != Sep
  {
    SplitExt(name).0
  }
}
