/** Python's `os.path.splitext` on POSIX: the extension starts at the last
    dot of the last path component, unless every character before that dot
    in the component is itself a dot (`.bashrc` has no extension). */
module Path {

  /** `s.rfind(c)`: the last index holding `c`, or -1. */
  function LastIndexOf(s: string, c: char): (r: int)
    ensures -1 <= r < |s|
    ensures r >= 0 ==> s[r] == c
    ensures forall i :: r < i < |s| ==> s[i] != c
  {
    if s == [] then -1
    else if s[|s| - 1] == c then |s| - 1
    else LastIndexOf(s[..|s| - 1], c)
  }

  /** Some character of `s[lo..hi]` is not a dot. */
  predicate HasNonDot(s: string, lo: int, hi: int)
    requires 0 <= lo && hi <= |s|
  {
    exists i :: lo <= i < hi && s[i] != '.'
  }

  /** `os.path.splitext(p)` as the pair `(root, ext)`. */
  function SplitExt(p: string): (r: (string, string))
    ensures r.0 + r.1 == p
    ensures r.1 == [] || (r.1[0] == '.' && '.' !in r.1[1..] && '/' !in r.1[1..])
  {
    var sep := LastIndexOf(p, '/');
    var dot := LastIndexOf(p, '.');
    if dot > sep && HasNonDot(p, sep + 1, dot) then
      assert p[..dot] + p[dot..] == p;
      (p[..dot], p[dot..])
    else (p, [])
  }

  lemma {:induction false} LastIndexOfAppend(a: string, b: string, c: char)
    requires c !in b
    ensures LastIndexOf(a + b, c) == LastIndexOf(a, c)
  {
    if b != [] {
      assert (a + b)[..|a + b| - 1] == a + b[..|b| - 1];
      LastIndexOfAppend(a, b[..|b| - 1], c);
    } else {
      assert a + b == a;
    }
  }

  /** Joining a root and an extension and splitting again gives both back,
      as long as the root's last component has a character that is not a
      dot and the extension is one dot followed by no dot and no slash. */
  lemma SplitExtOfJoin(root: string, x: string)
    requires '.' !in x && '/' !in x
    requires HasNonDot(root, LastIndexOf(root, '/') + 1, |root|)
    ensures SplitExt(root + "." + x) == (root, "." + x)
  {
    var p := root + "." + x;
    var sep := LastIndexOf(root, '/');
    JoinIndices(root, x);
    var i :| sep + 1 <= i < |root| && root[i] != '.';
    assert p[i] == root[i];
    assert HasNonDot(p, LastIndexOf(p, '/') + 1, LastIndexOf(p, '.'));
    SplitAtLastDot(p, |root|);
    JoinSlices(root, x);
  }

  /** A name without a slash has no directory part. */
  lemma {:induction false} NoSlashNoDirectory(s: string)
    requires '/' !in s
    ensures LastIndexOf(s, '/') == -1
  {
    if s != [] {
      NoSlashNoDirectory(s[..|s| - 1]);
    }
  }

  /** A plain file name (no slash, not starting with a dot) with an
      extension splits at that extension. */
  lemma SplitExtOfFileName(root: string, x: string)
    requires '/' !in root && |root| > 0 && root[0] != '.'
    requires '.' !in x && '/' !in x
    ensures SplitExt(root + "." + x) == (root, "." + x)
  {
    NoSlashNoDirectory(root);
    assert HasNonDot(root, 0, |root|) by {
      assert root[0] != '.';
    }
    SplitExtOfJoin(root, x);
  }

  lemma SplitAtLastDot(p: string, dot: int)
    requires dot == LastIndexOf(p, '.') && dot > LastIndexOf(p, '/')
    requires HasNonDot(p, LastIndexOf(p, '/') + 1, dot)
    ensures SplitExt(p) == (p[..dot], p[dot..])
  {
  }

  lemma JoinSlices(root: string, x: string)
    ensures (root + "." + x)[..|root|] == root
    ensures (root + "." + x)[|root|..] == "." + x
  {
  }

  lemma JoinIndices(root: string, x: string)
    requires '.' !in x && '/' !in x
    ensures LastIndexOf(root + "." + x, '.') == |root|
    ensures LastIndexOf(root + "." + x, '/') == LastIndexOf(root, '/')
  {
    assert root + "." + x == (root + ".") + x;
    LastIndexOfAppend(root + ".", x, '.');
    LastIndexOfAppend(root + ".", x, '/');
    LastIndexOfAppend(root, ".", '/');
    assert (root + ".")[..|root|] == root;
  }

  /** A name without a dot after its last slash has no extension. */
  lemma NoDotNoExt(p: string)
    requires forall i :: LastIndexOf(p, '/') < i < |p| ==> p[i] != '.'
    ensures SplitExt(p) == (p, [])
  {
  }

  /** Leading dots do not start an extension: `...` and `.bashrc` keep
      their whole name as root. */
  lemma LeadingDotsNoExt(p: string, k: nat)
    requires '/' !in p && k <= |p|
    requires forall i :: 0 <= i < k ==> p[i] == '.'
    requires forall i :: k <= i < |p| ==> p[i] != '.'
    ensures SplitExt(p) == (p, [])
  {
    var dot := LastIndexOf(p, '.');
    assert dot < k;
    if dot >= 0 {
      assert !HasNonDot(p, 0, dot);
    }
  }
}
