/** Path strings: the names between their slashes, and the split into a parent path and a last name. */
module PhasePaths {
  import opened PhaseTree

  const MAX_NAME := 64

  /** The names completed by the first characters of a path, and the name being read. */
  datatype Scan = Scan(done: Path, token: string)

  function ScanTo(s: string, n: nat): Scan
    requires n <= |s|
  {
    if n == 0 then Scan([], "") else ScanChar(ScanTo(s, n - 1), s[n - 1])
  }

  function ScanChar(scan: Scan, c: char): Scan {
    if c != '/' then scan.(token := scan.token + [c])
    else if scan.token == "" then scan
    else Scan(scan.done + [scan.token], "")
  }

  function Close(scan: Scan): Path {
    if scan.token == "" then scan.done else scan.done + [scan.token]
  }

  /** The names of a path, without the empty ones between neighbouring slashes. */
  function Names(s: string): Path {
    Close(ScanTo(s, |s|))
  }

  predicate IsName(name: string) {
    name != "" && '/' !in name
  }

  lemma {:induction false} ScanClean(s: string, n: nat)
    requires n <= |s|
    ensures '/' !in ScanTo(s, n).token && forall c <- ScanTo(s, n).done :: IsName(c)
    decreases n
  {
    if n > 0 {
      ScanClean(s, n - 1);
    }
  }

  lemma NamesClean(s: string)
    ensures forall c <- Names(s) :: IsName(c)
  {
    ScanClean(s, |s|);
  }

  lemma LastIsName(s: string, above: Path, name: string)
    requires Names(s) == above + [name]
    ensures IsName(name)
  {
    NamesClean(s);
    assert name in above + [name];
  }

  lemma {:induction false} ScanPrefix(s: string, t: string, n: nat)
    requires n <= |s|
    ensures ScanTo(s + t, n) == ScanTo(s, n)
    decreases n
  {
    if n > 0 {
      ScanPrefix(s, t, n - 1);
    }
  }

  lemma {:induction false} ScanName(s: string, name: string, n: nat)
    requires '/' !in name && n <= |name|
    ensures ScanTo(s + name, |s| + n) == ScanTo(s, |s|).(token := ScanTo(s, |s|).token + name[..n])
    decreases n
  {
    if n == 0 {
      ScanPrefix(s, name, |s|);
    } else {
      ScanName(s, name, n - 1);
      assert (s + name)[|s| + n - 1] == name[n - 1];
      assert name[..n] == name[..n - 1] + [name[n - 1]];
    }
  }

  /** A name after a slash is one more name. */
  lemma NamesJoin(parent: string, name: string)
    requires IsName(name)
    ensures Names(parent + "/" + name) == Names(parent) + [name]
  {
    var s := parent + "/";
    ScanPrefix(parent, "/", |parent|);
    assert ScanTo(s, |s|) == Scan(Names(parent), "");
    ScanName(s, name, |name|);
    assert name[..|name|] == name && "" + name == name;
  }

  lemma RootNames()
    ensures Names("/") == [] && Names("") == []
  {
    assert ScanTo("/", 1) == ScanChar(ScanTo("/", 0), '/');
  }

  /** split_path: where the two halves of a path fall. For an absolute path they spell its names exactly when it does
      not end in a slash: a trailing slash stays in the last name. */
  method SplitPath(path: string) returns (parent: string, name: string)
    requires path != "" && path[0] == '/'
    ensures parent != "" && parent[0] == '/'
    ensures path[|path| - 1] != '/' ==> IsName(name)
    ensures Names(path) == Names(parent) + [name] <==> path[|path| - 1] != '/'
    ensures exists i :: 0 <= i < |path| && path[i] == '/' && name == path[i + 1..]
  {
    var i := |path| - 1;
    while i > 0 && path[i] == '/'
      invariant 0 <= i < |path|
      invariant i == |path| - 1 || forall j | i < j < |path| :: path[j] == '/'
    {
      i := i - 1;
    }
    ghost var last := i;
    while i >= 0 && path[i] != '/'
      invariant 0 <= i <= last
      invariant forall j | i < j <= last :: path[j] != '/'
    {
      i := i - 1;
    }
    parent := if i == 0 then "/" else path[..i];
    name := path[i + 1..];
    assert path == path[..i] + "/" + name;
    RootNames();
    if path[|path| - 1] != '/' {
      NamesJoin(path[..i], name);
      assert path[..0] == "";
    } else {
      assert name != "" ==> name[|name| - 1] == path[|path| - 1];
      if Names(path) == Names(parent) + [name] {
        LastIsName(path, Names(parent), name);
      }
    }
  }
}
