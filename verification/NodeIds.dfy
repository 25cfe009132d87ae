/** Node ids and paths as the strings they are: `tests/m.py::C::t` is a module key, then a `::` chain. */
module NodeIds {
  predicate HasPrefix(s: string, p: string) {
    p <= s
  }

  predicate HasSuffix(s: string, p: string) {
    |p| <= |s| && s[|s| - |p|..] == p
  }

  predicate SeparatorIsAt(s: string, k: nat) {
    k + 1 < |s| && s[k] == ':' && s[k + 1] == ':'
  }

  // Where the first `::` starts; `|s|` when there is none.
  function SeparatorAt(s: string): (i: nat)
    ensures i <= |s|
    ensures i < |s| ==> SeparatorIsAt(s, i)
    ensures forall k: nat :: k < i ==> !SeparatorIsAt(s, k)
  {
    if |s| < 2 then |s|
    else if SeparatorIsAt(s, 0) then 0
    else
      var i := SeparatorAt(s[1..]);
      assert forall k: nat :: k > 0 && SeparatorIsAt(s, k) ==> SeparatorIsAt(s[1..], k - 1);
      1 + i
  }

  predicate HasSeparator(s: string) {
    SeparatorAt(s) < |s|
  }

  // `s.partition("::")[0]` and `s.partition("::")[2]`
  function Before(s: string): string {
    s[..SeparatorAt(s)]
  }

  function After(s: string): string {
    if HasSeparator(s) then s[SeparatorAt(s) + 2..] else ""
  }

  lemma {:induction false} SplitsAtKey(key: string, rest: string)
    requires forall i :: 0 <= i < |key| ==> key[i] != ':'
    ensures HasSeparator(key + "::" + rest)
    ensures Before(key + "::" + rest) == key && After(key + "::" + rest) == rest
  {
    var s := key + "::" + rest;
    assert SeparatorIsAt(s, |key|);
    forall k: nat | k < |key|
      ensures !SeparatorIsAt(s, k)
    {
      assert s[k] == key[k];
    }
    assert s[..|key|] == key && s[|key| + 2..] == rest;
  }

  function ModuleKey(nodeId: string): string {
    Before(nodeId)
  }

  // The class part of a node id: `C` of `m.py::C::t`, the function's own name of `m.py::t`.
  function ClassPart(nodeId: string): string {
    Before(After(nodeId))
  }

  // ---- POSIX paths ----

  function SlashCount(s: string): nat {
    if s == "" then 0 else SlashCount(s[..|s| - 1]) + if s[|s| - 1] == '/' then 1 else 0
  }

  // The part of a path up to and including its last slash.
  function Head(p: string): string {
    if p == "" || p[|p| - 1] == '/' then p else Head(p[..|p| - 1])
  }

  function WithoutTrailingSlashes(p: string): string {
    if p == "" || p[|p| - 1] != '/' then p else WithoutTrailingSlashes(p[..|p| - 1])
  }

  lemma {:induction false} HeadOf(dir: string, file: string)
    requires forall i :: 0 <= i < |file| ==> file[i] != '/'
    ensures Head(dir + file) == Head(dir)
  {
    if file == "" {
      assert dir + file == dir;
    } else {
      HeadOf(dir, file[..|file| - 1]);
      assert (dir + file)[..|dir + file| - 1] == dir + file[..|file| - 1];
    }
  }

  // The directory of a file, and of one with none.
  lemma {:induction false} DirNameOf(dir: string, file: string)
    requires forall i :: 0 <= i < |file| ==> file[i] != '/'
    ensures DirName(file) == ""
    ensures dir != "" && dir[|dir| - 1] != '/' ==> DirName(dir + "/" + file) == dir
  {
    HeadOf("", file);
    assert "" + file == file;
    if dir != "" && dir[|dir| - 1] != '/' {
      HeadOf(dir + "/", file);
      assert (dir + "/")[|dir|] == '/' && (dir + "/")[..|dir|] == dir;
      assert (dir + "/")[|dir| - 1] == dir[|dir| - 1];
      assert WithoutTrailingSlashes(dir + "/") == WithoutTrailingSlashes(dir) == dir;
    }
  }

  // `os.path.dirname`
  function DirName(p: string): string {
    var head := Head(p);
    if forall i :: 0 <= i < |head| ==> head[i] == '/' then head else WithoutTrailingSlashes(head)
  }
}
