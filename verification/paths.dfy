/**
 File-name extensions as Python's `os.path.splitext` computes them on a
 POSIX path, the way the checker reads them
 (pre_commit_hooks/cpg_id_checker.py:95-97).
 */
module Paths {

  /** Index of the last `c` in `s`, or -1 (Python's `str.rfind`). */
  function RFind(s: string, c: char): (i: int)
    ensures -1 <= i < |s|
    ensures i >= 0 ==> s[i] == c
    ensures forall k :: i < k < |s| ==> s[k] != c
  {
    if |s| == 0 then -1
    else if s[|s| - 1] == c then |s| - 1
    else RFind(s[..|s| - 1], c)
  }

  /** Some character in `p[lo..hi]` is not a dot. */
  function HasNonDot(p: string, lo: int, hi: int): (b: bool)
    requires 0 <= lo && hi <= |p|
    ensures b <==> exists k :: lo <= k < hi && p[k] != '.'
    decreases hi - lo
  {
    if lo >= hi then false
    else if p[lo] != '.' then true
    else HasNonDot(p, lo + 1, hi)
  }

  /** Position `k` of `p` lies in the final path component: no `/` at or
      after it. */
  ghost predicate InLastComponent(p: string, k: int) {
    0 <= k <= |p| && forall j :: k <= j < |p| ==> p[j] != '/'
  }

  /** `d` is a dot that can start an extension: a `.` in the final path
      component with some character other than a dot before it in that
      component (so the leading dots of `.bashrc` do not count). */
  ghost predicate ExtensionDot(p: string, d: int) {
    && 0 <= d < |p|
    && p[d] == '.'
    && InLastComponent(p, d)
    && exists k :: 0 <= k < d && InLastComponent(p, k) && p[k] != '.'
  }

  /** Python's `posixpath.splitext`: cut `p` before its last extension dot,
      or not at all when there is none. */
  function SplitExt(p: string): (r: (string, string))
    ensures r.0 + r.1 == p
    ensures r.1 != [] <==> exists d :: ExtensionDot(p, d)
    ensures r.1 != [] ==> ExtensionDot(p, |r.0|)
    ensures forall d :: ExtensionDot(p, d) ==> d <= |r.0|
  {
    var sepIndex := RFind(p, '/');
    var dotIndex := RFind(p, '.');
    if dotIndex > sepIndex && HasNonDot(p, sepIndex + 1, dotIndex) then
      assert ExtensionDot(p, dotIndex);
      (p[..dotIndex], p[dotIndex..])
    else
      assert forall d :: !ExtensionDot(p, d) by {
        forall d | ExtensionDot(p, d) ensures false {
          NoExtensionDot(p, sepIndex, dotIndex, d);
        }
      }
      (p, [])
  }

  lemma NoExtensionDot(p: string, sepIndex: int, dotIndex: int, d: int)
    requires sepIndex == RFind(p, '/') && dotIndex == RFind(p, '.')
    requires !(dotIndex > sepIndex && HasNonDot(p, sepIndex + 1, dotIndex))
    ensures !ExtensionDot(p, d)
  {
  }

  /** The extension of `p`: empty, or starting with `.`. */
  function Ext(p: string): string {
    SplitExt(p).1
  }

  /** An extension is one dot followed by characters that are neither dots
      nor path separators: `.tar.gz` can never be an extension. */
  lemma ExtensionShape(p: string)
    ensures Ext(p) != [] ==> |Ext(p)| >= 1 && Ext(p)[0] == '.'
    ensures forall j :: 1 <= j < |Ext(p)| ==> Ext(p)[j] != '.' && Ext(p)[j] != '/'
  {
    var (root, e) := SplitExt(p);
    if e != [] {
      var d := |root|;
      forall j | 1 <= j < |e| ensures e[j] != '.' && e[j] != '/' {
        assert e[j] == p[d + j];
        if p[d + j] == '.' {
          assert ExtensionDot(p, d + j);
        }
      }
    }
  }

  /** A suffix of the shape `.xyz` appended to a stem whose last character
      is an ordinary file-name character is exactly the extension. */
  lemma SuffixIsExtension(stem: string, e: string)
    requires |stem| >= 1 && stem[|stem| - 1] != '.' && stem[|stem| - 1] != '/'
    requires |e| >= 1 && e[0] == '.'
    requires forall j :: 1 <= j < |e| ==> e[j] != '.' && e[j] != '/'
    ensures Ext(stem + e) == e
  {
    var p := stem + e;
    var d := |stem|;
    assert InLastComponent(p, d - 1);
    assert ExtensionDot(p, d);
  }

  /** A dot in a directory name never makes an extension: only the final
      path component counts. */
  lemma DirectoryDotsIgnored(dir: string, name: string)
    requires forall j :: 0 <= j < |name| ==> name[j] != '/'
    ensures Ext(dir + "/" + name) == Ext(name)
  {
    var p := dir + "/" + name;
    var off := |dir| + 1;
    forall d | ExtensionDot(p, d) ensures d >= off && ExtensionDot(name, d - off) {
      var k :| 0 <= k < d && InLastComponent(p, k) && p[k] != '.';
      assert p[off - 1] == '/';
      assert k >= off;
      assert name[k - off] == p[k];
      assert InLastComponent(name, k - off);
    }
    forall d | ExtensionDot(name, d) ensures ExtensionDot(p, d + off) {
      var k :| 0 <= k < d && InLastComponent(name, k) && name[k] != '.';
      assert p[k + off] == name[k];
      assert InLastComponent(p, k + off);
    }
    var (rp, ep) := SplitExt(p);
    var (rn, en) := SplitExt(name);
    if en != [] {
      assert ExtensionDot(p, |rn| + off);
      assert |rp| == |rn| + off;
      assert ep == p[|rp|..];
      assert p[|rp|..] == name[|rn|..];
    }
  }
}
