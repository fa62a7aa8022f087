/**
 * The few string and `os.path` operations the extraction tools rely on, for
 * POSIX paths. `Join` deliberately leaves out the rule that an absolute second
 * component replaces the first.
 */
module Paths {

  /** Python's `s.endswith(suffix)`. */
  predicate EndsWith(s: string, suffix: string) {
    |suffix| <= |s| && s[|s| - |suffix|..] == suffix
  }

  /** Python's `needle in hay` on strings: `needle` occurs somewhere in `hay`. */
  predicate Contains(hay: string, needle: string)
    decreases |hay|
  {
    needle <= hay || (|hay| > 0 && Contains(hay[1..], needle))
  }

  /** A string always contains itself (and the empty string is in every string). */
  lemma ContainsItself(s: string)
    ensures Contains(s, s)
    ensures Contains(s, "")
  {
  }

  /** `needle` occurs in `hay` at offset `k`. */
  lemma {:induction false} ContainsAt(hay: string, needle: string, k: nat)
    requires k + |needle| <= |hay| && hay[k..k + |needle|] == needle
    ensures Contains(hay, needle)
    decreases k
  {
    if k == 0 {
      assert needle <= hay;
    } else {
      assert hay[1..][k - 1..k - 1 + |needle|] == hay[k..k + |needle|];
      ContainsAt(hay[1..], needle, k - 1);
    }
  }

  /** The index of the last occurrence of `c` in `s`, or -1 (Python's `s.rfind(c)`). */
  function LastIndexOf(s: string, c: char): (i: int)
    ensures -1 <= i < |s|
    ensures i >= 0 ==> s[i] == c
    ensures forall j :: i < j < |s| ==> s[j] != c
  {
    if s == [] then -1
    else if s[|s| - 1] == c then |s| - 1
    else LastIndexOf(s[..|s| - 1], c)
  }

  /** `os.path.join(a, b)` for a relative `b`. */
  function Join(a: string, b: string): string {
    if a == [] || a[|a| - 1] == '/' then a + b else a + "/" + b
  }

  /** `os.path.basename(p)`: everything after the last slash. */
  function Basename(p: string): (b: string)
    ensures '/' !in b
    ensures EndsWith(p, b)
    ensures |b| == |p| || p[|p| - |b| - 1] == '/'
  {
    var i := LastIndexOf(p, '/');
    TailAfter(p, i, '/');
    p[i + 1..]
  }

  /** The part of `s` after position `i`, when `c` does not occur there. */
  lemma TailAfter(s: string, i: int, c: char)
    requires -1 <= i < |s|
    requires forall j :: i < j < |s| ==> s[j] != c
    ensures c !in s[i + 1..]
    ensures EndsWith(s, s[i + 1..])
  {
    var tail := s[i + 1..];
    forall k | 0 <= k < |tail| ensures tail[k] != c {
      assert tail[k] == s[i + 1 + k];
    }
    assert s[|s| - |tail|..] == tail;
  }

  /** `s.rstrip('/')`. */
  function StripTrailingSlashes(s: string): (r: string)
    ensures r <= s
    ensures r == [] || r[|r| - 1] != '/'
  {
    if s != [] && s[|s| - 1] == '/' then StripTrailingSlashes(s[..|s| - 1]) else s
  }

  /**
   * `os.path.dirname(p)`: everything before the last slash, with trailing
   * slashes removed unless the head consists of slashes only.
   */
  function Dirname(p: string): string {
    var head := p[..LastIndexOf(p, '/') + 1];
    if head != [] && exists k :: 0 <= k < |head| && head[k] != '/' then StripTrailingSlashes(head) else head
  }

  /** `os.path.splitext(p)[0]`: `p` without its last extension; leading dots of the file name do not start one. */
  function StripExtension(p: string): (root: string)
    ensures root <= p
    ensures root == p || (p[|root|] == '.' && '.' !in p[|root| + 1..] && '/' !in p[|root| + 1..])
  {
    var sep := LastIndexOf(p, '/');
    var dot := LastIndexOf(p, '.');
    if dot > sep && exists k :: sep < k < dot && p[k] != '.' then
      var ext := p[dot + 1..];
      assert forall j :: 0 <= j < |ext| ==> ext[j] == p[dot + 1 + j];
      p[..dot]
    else p
  }

  /**
   * A stem whose last path component has a character other than a dot,
   * followed by "." and an extension without dots or slashes: `StripExtension`
   * gives the stem back.
   */
  lemma StripExtensionRemovesExtension(stem: string, ext: string)
    requires '.' !in ext && '/' !in ext
    requires exists k :: 0 <= k < |stem| && stem[k] != '.' && '/' !in stem[k..]
    ensures StripExtension(stem + "." + ext) == stem
  {
    var p := stem + "." + ext;
    var k :| 0 <= k < |stem| && stem[k] != '.' && '/' !in stem[k..];
    var dot := LastIndexOf(p, '.');
    var sep := LastIndexOf(p, '/');
    assert p[|stem|] == '.';
    assert forall j :: |stem| < j < |p| ==> p[j] == ext[j - |stem| - 1];
    assert dot == |stem|;
    assert forall j :: k <= j < |stem| ==> p[j] == stem[k..][j - k];
    assert sep < k;
    assert p[k] == stem[k];
    assert p[..dot] == stem;
  }

  /** A path whose base name has no dot has no extension to strip. */
  lemma StripExtensionWithoutDot(p: string)
    requires '.' !in Basename(p)
    ensures StripExtension(p) == p
  {
  }

  /** For a fixed directory, `Join` tells its second components apart. */
  lemma JoinInjective(a: string, b1: string, b2: string)
    requires Join(a, b1) == Join(a, b2)
    ensures b1 == b2
  {
    var pre := if a == [] || a[|a| - 1] == '/' then a else a + "/";
    assert Join(a, b1) == pre + b1 && Join(a, b2) == pre + b2;
    assert b1 == (pre + b1)[|pre|..];
    assert b2 == (pre + b2)[|pre|..];
  }

  /** Joining a file name to a directory puts the name last: basename undoes the join. */
  lemma BasenameOfJoin(dir: string, name: string)
    requires '/' !in name
    ensures Basename(Join(dir, name)) == name
  {
    var p := Join(dir, name);
    var pre := if dir == [] || dir[|dir| - 1] == '/' then dir else dir + "/";
    assert p == pre + name;
    var i := LastIndexOf(p, '/');
    if pre == [] {
      assert forall j :: 0 <= j < |p| ==> p[j] == name[j];
      assert i == -1;
    } else {
      assert p[|pre| - 1] == '/';
      assert forall j :: |pre| <= j < |p| ==> p[j] == name[j - |pre|];
      assert i == |pre| - 1;
      assert p[i + 1..] == name;
    }
  }

  /** A directory in the form `Dirname` returns: empty, slashes only, or without a trailing slash. */
  predicate DirnameShaped(d: string) {
    d == [] || d[|d| - 1] != '/' || forall k :: 0 <= k < |d| ==> d[k] == '/'
  }

  /** Every result of `Dirname` has that form. */
  lemma DirnameShape(p: string)
    ensures DirnameShaped(Dirname(p))
  {
    var head := p[..LastIndexOf(p, '/') + 1];
    if head != [] && exists k :: 0 <= k < |head| && head[k] != '/' {
      var r := StripTrailingSlashes(head);
      assert r == [] || r[|r| - 1] != '/';
    }
  }

  /** Joining a file name to a directory in `Dirname` form: dirname undoes the join. */
  lemma DirnameOfJoin(dir: string, name: string)
    requires '/' !in name
    requires DirnameShaped(dir)
    ensures Dirname(Join(dir, name)) == dir
  {
    var p := Join(dir, name);
    var i := LastIndexOf(p, '/');
    if dir == [] {
      assert p == name;
      assert i == -1;
    } else if dir[|dir| - 1] == '/' {
      assert p == dir + name;
      assert p[|dir| - 1] == '/';
      assert forall j :: |dir| <= j < |p| ==> p[j] == name[j - |dir|];
      assert i == |dir| - 1;
      assert p[..i + 1] == dir;
    } else {
      var pre := dir + "/";
      assert p == pre + name;
      assert p[|pre| - 1] == '/';
      assert forall j :: |pre| <= j < |p| ==> p[j] == name[j - |pre|];
      assert i == |dir|;
      var head := p[..i + 1];
      assert head == pre;
      assert head[|dir| - 1] != '/';
      assert StripTrailingSlashes(head) == StripTrailingSlashes(dir);
      assert StripTrailingSlashes(dir) == dir;
    }
  }

  /** `p`, with ".blp" appended unless it already ends with ".blp": how both tools name a sheet file. */
  function WithBlpExtension(p: string): (r: string)
    ensures EndsWith(r, ".blp")
    ensures EndsWith(p, ".blp") ==> r == p
    ensures !EndsWith(p, ".blp") ==> r == p + ".blp"
  {
    if EndsWith(p, ".blp") then p
    else
      var r := p + ".blp";
      assert r[|r| - 4..] == ".blp";
      r
  }

  /** Appending the extension is idempotent: a sheet path never gets ".blp.blp" added. */
  lemma WithBlpExtensionIdempotent(p: string)
    ensures WithBlpExtension(WithBlpExtension(p)) == WithBlpExtension(p)
  {
  }

  /** A suffix of the joined component is a suffix of the joined path. */
  lemma JoinKeepsSuffix(a: string, b: string, suffix: string)
    requires EndsWith(b, suffix)
    ensures EndsWith(Join(a, b), suffix)
  {
    var pre := if a == [] || a[|a| - 1] == '/' then a else a + "/";
    var p := Join(a, b);
    assert p == pre + b;
    assert p[|p| - |suffix|..] == b[|b| - |suffix|..];
  }

  /** `s + suffix` ends with `suffix`. */
  lemma AppendEndsWith(s: string, suffix: string)
    ensures EndsWith(s + suffix, suffix)
  {
    var p := s + suffix;
    assert p[|p| - |suffix|..] == suffix;
  }

  /** No path ends both with ".blp" and with ".png". */
  lemma BlpIsNotPng(s: string)
    requires EndsWith(s, ".blp")
    ensures !EndsWith(s, ".png")
  {
    var tail := s[|s| - 4..];
    assert tail == ".blp";
    assert s[|s| - 3] == tail[1];
  }
}
