/**
  `get_shell_name` of wut/utils.py: maps a shell path or bare name to one of the
  supported shell names, using `posixpath.splitext`.
 */
module Shells {
  import opened Wrappers
  import opened Text

  const SHELLS: seq<string> := ["bash", "fish", "zsh", "csh", "tcsh", "powershell", "pwsh"]

  /** `s.rfind(c)`: index of the last `c` in `s`, or -1. */
  function RFind(s: string, c: char): (r: int)
    ensures -1 <= r < |s|
    ensures r >= 0 ==> s[r] == c
    ensures forall j | r < j < |s| :: s[j] != c
  {
    if s == [] then -1 else if s[|s| - 1] == c then |s| - 1 else RFind(s[..|s| - 1], c)
  }

  /**
    `posixpath.splitext(p)`: the extension runs from the last dot of the last path
    component, provided something other than a dot precedes that dot in the component.
   */
  function SplitExt(p: string): (parts: (string, string))
    ensures parts.0 + parts.1 == p
    ensures parts.1 == [] || (parts.1[0] == '.' && '.' !in parts.1[1..] && '/' !in parts.1)
    ensures parts.1 != [] ==> exists j | RFind(p, '/') < j < |parts.0| :: p[j] != '.'
    ensures parts.1 == [] ==>
      forall d | RFind(p, '/') < d < |p| && p[d] == '.' :: forall j | RFind(p, '/') < j < d :: p[j] == '.'
  {
    var sepIndex := RFind(p, '/');
    var dotIndex := RFind(p, '.');
    if dotIndex > sepIndex && exists j | sepIndex + 1 <= j < dotIndex :: p[j] != '.' then
      assert forall i | 0 <= i < |p[dotIndex..]| :: p[dotIndex..][i] == p[dotIndex + i];
      (p[..dotIndex], p[dotIndex..])
    else
      (p, [])
  }

  /** The contract of `SplitExt` leaves only one split: the one it makes. */
  lemma SplitExtUnique(p: string, root: string, ext: string)
    requires root + ext == p
    requires ext == [] || (ext[0] == '.' && '.' !in ext[1..] && '/' !in ext)
    requires ext != [] ==> exists j | RFind(p, '/') < j < |root| :: p[j] != '.'
    requires ext == [] ==>
      forall d | RFind(p, '/') < d < |p| && p[d] == '.' :: forall j | RFind(p, '/') < j < d :: p[j] == '.'
    ensures SplitExt(p) == (root, ext)
  {
    var sepIndex, dotIndex := RFind(p, '/'), RFind(p, '.');
    if ext != [] {
      var k := |root|;
      assert p[k] == ext[0] == '.';
      assert forall i | k < i < |p| :: p[i] == ext[1..][i - k - 1];
      assert dotIndex == k;
      assert forall i | k <= i < |p| :: p[i] == ext[i - k];
      assert sepIndex < k;
      assert p[..k] == root && p[k..] == ext;
    } else {
      assert root == p;
      if dotIndex > sepIndex {
        assert forall j | sepIndex < j < dotIndex :: p[j] == '.';
      }
    }
  }

  /** `get_shell_name(shell_path)` */
  function GetShellName(shellPath: Option<string>): (name: Option<string>)
    ensures shellPath.None? || shellPath.value == [] ==> name.None?
    ensures name.Some? ==> name.value in SHELLS
  {
    if shellPath.None? || shellPath.value == [] then None
    else
      var path := shellPath.value;
      var (root, ext) := SplitExt(path);
      if Lower(ext) in SHELLS then Some(Lower(ext))
      else if Lower(root) in SHELLS then Some(Lower(root))
      else if Lower(path) in SHELLS then Some(Lower(path))
      else None
  }

  lemma ShellNamesAreLowerCaseWords()
    ensures forall s | s in SHELLS :: s != [] && Lower(s) == s && '.' !in s && '/' !in s
  {
    forall s | s in SHELLS
      ensures s != [] && Lower(s) == s && '.' !in s && '/' !in s
    {
      assert forall i | 0 <= i < |s| :: 'a' <= s[i] <= 'z';
    }
  }

  /** The extension keeps its dot, so the first test of `get_shell_name` never succeeds. */
  lemma ExtensionIsNeverAShell(p: string)
    ensures Lower(SplitExt(p).1) !in SHELLS
  {
    var ext := SplitExt(p).1;
    if ext != [] {
      assert Lower(ext)[0] == '.';
    }
    ShellNamesAreLowerCaseWords();
  }

  /**
    What `get_shell_name` decides for a non-empty path: the path with its extension
    removed, when that is a shell name in any letter case; else the whole path in lower case.
   */
  lemma {:induction false} ShellNameOfPath(path: string)
    requires path != []
    ensures GetShellName(Some(path)) ==
      var root := Lower(SplitExt(path).0);
      if root in SHELLS then Some(root)
      else if Lower(path) in SHELLS then Some(Lower(path))
      else None
  {
    ExtensionIsNeverAShell(path);
  }

  lemma RFindAbsent(s: string, c: char)
    requires c !in s
    ensures RFind(s, c) == -1
  {
  }

  lemma {:induction false} RFindBefore(a: string, c: char, b: string)
    requires c !in b
    ensures RFind(a + [c] + b, c) == |a|
  {
    var s := a + [c] + b;
    if b != [] {
      assert s[|s| - 1] == b[|b| - 1];
      assert s[..|s| - 1] == a + [c] + b[..|b| - 1];
      RFindBefore(a, c, b[..|b| - 1]);
    }
  }

  /** Every supported shell name is recognised as it is, and with any extension. */
  lemma ShellNameWithExtension(s: string, ext: string)
    requires s in SHELLS
    requires '.' !in ext && '/' !in ext
    ensures GetShellName(Some(s)) == Some(s)
    ensures GetShellName(Some(s + "." + ext)) == Some(s)
  {
    ShellNamesAreLowerCaseWords();
    RFindAbsent(s, '.');
    RFindAbsent(s, '/');
    assert SplitExt(s) == (s, []);
    ExtensionIsNeverAShell(s);
    var p := s + "." + ext;
    assert p[..|s|] == s;
    assert forall i | 0 <= i < |s| :: p[i] == s[i];
    assert '/' !in p;
    RFindAbsent(p, '/');
    RFindBefore(s, '.', ext);
    assert p == s + ['.'] + ext;
    assert p[0] != '.';
    assert SplitExt(p).0 == s;
    ExtensionIsNeverAShell(p);
  }

  /** An absolute path to a shell is not recognised, because the root of the split keeps its directories. */
  lemma FullPathNotRecognised()
    ensures GetShellName(Some("/bin/zsh")) == None
  {
    var p := "/bin/zsh";
    RFindAbsent(p, '.');
    ExtensionIsNeverAShell(p);
    assert SplitExt(p).0 == p;
    assert Lower(p)[0] == '/';
    ShellNamesAreLowerCaseWords();
  }

  /** The last component of a path: everything after its last '/'. */
  function Basename(p: string): (b: string)
    ensures '/' !in b
    ensures |b| <= |p| && b == p[|p| - |b|..]
    ensures |b| < |p| ==> p[|p| - |b| - 1] == '/'
  {
    var k := RFind(p, '/');
    assert forall i | k + 1 <= i < |p| :: p[i] != '/';
    p[k + 1..]
  }

  /** The shell name as evidently intended: the tests of `get_shell_name` applied to the last path component. */
  function ShellNameOfBasename(shellPath: Option<string>): (name: Option<string>)
    ensures name.Some? ==> name.value in SHELLS
    ensures shellPath.Some? && '/' !in shellPath.value ==> name == GetShellName(shellPath)
  {
    if shellPath.None? then None else GetShellName(Some(Basename(shellPath.value)))
  }

  /** With the correction, a shell is recognised in any directory. */
  lemma ShellInDirectoryRecognised(dir: string, s: string)
    requires s in SHELLS
    ensures ShellNameOfBasename(Some(dir + "/" + s)) == Some(s)
  {
    ShellNamesAreLowerCaseWords();
    var p := dir + "/" + s;
    assert forall i | 0 <= i < |s| :: p[|dir| + 1 + i] == s[i];
    RFindBefore(dir, '/', s);
    assert p == dir + ['/'] + s;
    assert Basename(p) == s;
    ShellNameWithExtension(s, []);
  }
}
