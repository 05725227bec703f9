/** The three `os.path` operations the workflow uses to derive file names
    (`splitext`, `split`, `join`), for POSIX paths. */
module Paths {
  import opened Strings

  /** True when `p[lo..hi]` has a character other than `.`. */
  predicate HasNonDot(p: string, lo: int, hi: int)
    requires 0 <= lo <= hi <= |p|
  {
    exists k :: lo <= k < hi && p[k] != '.'
  }

  /** `os.path.splitext(p)`: the extension is the part of the last path
      component from its last `.` on, unless only dots precede that `.` in
      the component (so `.bashrc` has no extension). */
  function SplitExt(p: string): (r: (string, string))
    ensures r.0 + r.1 == p
    ensures r.1 == [] || (r.1[0] == '.' && '/' !in r.1 && '.' !in r.1[1..])
  {
    var sep := LastIndexOf(p, '/');
    var dot := LastIndexOf(p, '.');
    if dot > sep && HasNonDot(p, sep + 1, dot) then
      assert forall k :: 0 <= k < |p[dot..]| ==> p[dot..][k] == p[dot + k];
      (p[..dot], p[dot..])
    else
      (p, "")
  }

  /** Inserting a dot-free, slash-free text between the root and the
      extension keeps the extension: `splitext(root + ins + ext)` is
      `(root + ins, ext)`. */
  lemma SplitExtInsert(p: string, ins: string)
    requires |ins| > 0 && '.' !in ins && '/' !in ins
    ensures SplitExt(SplitExt(p).0 + ins + SplitExt(p).1) == (SplitExt(p).0 + ins, SplitExt(p).1)
  {
    if SplitExt(p).1 == [] {
      SplitExtInsertNoExt(p, ins);
    } else {
      SplitExtInsertExt(p, ins);
    }
  }

  lemma SplitExtInsertNoExt(p: string, ins: string)
    requires '.' !in ins && '/' !in ins
    requires SplitExt(p).1 == []
    ensures SplitExt(p + ins) == (p + ins, [])
  {
    var q := p + ins;
    var sep := LastIndexOf(p, '/');
    var dot := LastIndexOf(p, '.');
    LastIndexOfAppend(p, ins, '/');
    LastIndexOfAppend(p, ins, '.');
  }

  lemma SplitExtInsertExt(p: string, ins: string)
    requires |ins| > 0 && '.' !in ins && '/' !in ins
    requires SplitExt(p).1 != []
    ensures SplitExt(SplitExt(p).0 + ins + SplitExt(p).1) == (SplitExt(p).0 + ins, SplitExt(p).1)
  {
    var (root, ext) := SplitExt(p);
    var ri := root + ins;
    var q := ri + ext;
    assert LastIndexOf(ext, '.') == 0;
    LastIndexOfAppend(ri, ext, '.');
    assert LastIndexOf(q, '.') == |ri|;
    LastIndexOfAppend(ri, ext, '/');
    LastIndexOfAppend(root, ins, '/');
    LastIndexOfAppend(root, ext, '/');
    var sep := LastIndexOf(root, '/');
    assert LastIndexOf(q, '/') == sep;
    assert q[|root|] != '.';
    assert HasNonDot(q, sep + 1, |ri|);
    assert q[..|ri|] == ri;
    assert q[|ri|..] == ext;
  }

  /** A path ending in a dot-free, slash-free stem and an extension splits
      between the two, whatever precedes the stem. */
  lemma SplitExtStemExt(x: string, stem: string, ext: string)
    requires |stem| > 0 && '.' !in stem && '/' !in stem
    requires |ext| > 0 && ext[0] == '.' && '.' !in ext[1..] && '/' !in ext
    ensures SplitExt(x + stem + ext) == (x + stem, ext)
  {
    var xs := x + stem;
    var q := xs + ext;
    assert LastIndexOf(ext, '.') == 0;
    LastIndexOfAppend(xs, ext, '.');
    LastIndexOfAppend(xs, ext, '/');
    LastIndexOfAppend(x, stem, '/');
    var sep := LastIndexOf(x, '/');
    assert LastIndexOf(q, '/') == sep;
    assert q[|x|] != '.';
    assert HasNonDot(q, sep + 1, |xs|);
    assert q[..|xs|] == xs;
    assert q[|xs|..] == ext;
  }

  /** `os.path.split(p)[1]`: the text after the last `/`. */
  function Basename(p: string): (b: string)
    ensures forall k :: 0 <= k < |b| ==> b[k] != '/'
  {
    p[LastIndexOf(p, '/') + 1..]
  }

  /** `os.path.join(a, b)` for two components. */
  function Join(a: string, b: string): string
  {
    if |b| > 0 && b[0] == '/' then b
    else if |a| == 0 || a[|a| - 1] == '/' then a + b
    else a + "/" + b
  }

  /** The directory part `Join` puts before a relative name. */
  function DirPrefix(dir: string): string
  {
    if |dir| == 0 || dir[|dir| - 1] == '/' then dir else dir + "/"
  }

  lemma JoinRelative(dir: string, name: string)
    requires |name| == 0 || name[0] != '/'
    ensures Join(dir, name) == DirPrefix(dir) + name
  {
    if |dir| > 0 && dir[|dir| - 1] != '/' {
      AppendAssoc(dir, "/", name);
    }
  }

  /** The last component of a joined path is the file name that was joined. */
  lemma BasenameJoin(dir: string, name: string)
    requires '/' !in name
    ensures Basename(Join(dir, name)) == name
  {
    var x := DirPrefix(dir);
    assert |name| == 0 || name[0] != '/';
    JoinRelative(dir, name);
    LastIndexOfAppend(x, name, '/');
    assert LastIndexOf(x, '/') == |x| - 1;
    assert (x + name)[|x|..] == name;
  }
}
