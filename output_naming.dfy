/** The output file name of the extractors: the histogram name, an
    underscore, the input's base name without its extension, and ".txt";
    paths follow POSIX rules. */
module OutputNaming {

  /** str.rfind(c): the index of the last c in s, or -1. */
  function LastIndexOf(s: string, c: char): (r: int)
    ensures -1 <= r < |s|
    ensures r >= 0 ==> s[r] == c
    ensures forall k :: r < k < |s| ==> s[k] != c
    decreases |s|
  {
    if |s| == 0 then -1
    else if s[|s| - 1] == c then |s| - 1
    else LastIndexOf(s[..|s| - 1], c)
  }

  /** The last occurrence is unique: any index with c there and no c after
      it is the one LastIndexOf finds. */
  lemma LastIndexOfIs(s: string, c: char, r: int)
    requires -1 <= r < |s|
    requires r >= 0 ==> s[r] == c
    requires forall k :: r < k < |s| ==> s[k] != c
    ensures LastIndexOf(s, c) == r
  {
  }

  /** os.path.basename: the part after the last '/'. */
  function Basename(path: string): string
  {
    path[LastIndexOf(path, '/') + 1..]
  }

  /** The base name is the longest suffix of the path without a '/'. */
  lemma BasenameIsLastComponent(path: string)
    ensures '/' !in Basename(path)
    ensures |Basename(path)| <= |path| && Basename(path) == path[|path| - |Basename(path)|..]
    ensures |Basename(path)| < |path| ==> path[|path| - |Basename(path)| - 1] == '/'
  {
  }

  predicate AllDots(s: string)
  {
    forall k :: 0 <= k < |s| ==> s[k] == '.'
  }

  /** os.path.splitext(name)[0] for a name without '/': the last '.' and what
      follows it are dropped, unless only dots precede that '.' (so ".bashrc"
      and "..." keep their dots). */
  function StripExtension(name: string): string
  {
    var dot := LastIndexOf(name, '.');
    if dot >= 0 && !AllDots(name[..dot]) then name[..dot] else name
  }

  /** The stem is a prefix of the name. When it is shorter, a '.' follows it
      and no later '.' exists, and it is not made of dots only; when it is
      the whole name, every '.' of the name has only dots before it. */
  lemma StripExtensionIsStem(name: string)
    ensures var root := StripExtension(name);
      |root| <= |name| && root == name[..|root|] &&
      (|root| < |name| ==> name[|root|] == '.' && '.' !in name[|root| + 1..] && !AllDots(root)) &&
      (|root| == |name| ==> forall k :: 0 <= k < |name| && name[k] == '.' ==> AllDots(name[..k]))
  {
    var dot := LastIndexOf(name, '.');
    if !(dot >= 0 && !AllDots(name[..dot])) {
      assert forall k :: 0 <= k < |name| && name[k] == '.' ==> k <= dot && name[..k] == name[..dot][..k];
    }
  }

  /** The text file the extractors write histogram `hist` of `path` to. */
  function OutputName(hist: string, path: string): string
  {
    hist + "_" + StripExtension(Basename(path)) + ".txt"
  }

  /** The output name starts with the histogram name and an underscore, ends
      in ".txt", and everything after the histogram name is free of '/': no
      directory of the input enters it. When the histogram name has no '/'
      either, the file lands in the working directory; a histogram name that
      is a path inside the ROOT file ("sub/h") makes it a relative path. */
  lemma OutputNameShape(hist: string, path: string)
    ensures var name := OutputName(hist, path);
      |name| >= |hist| + 5 &&
      name[..|hist| + 1] == hist + "_" && name[|name| - 4..] == ".txt" &&
      '/' !in name[|hist|..] &&
      ('/' !in hist ==> '/' !in name)
  {
    var base := Basename(path);
    var stem := StripExtension(base);
    BasenameIsLastComponent(path);
    StripExtensionIsStem(base);
    PrefixLacks(base, |stem|, '/');
    NameShape(hist, stem);
  }

  lemma PrefixLacks(s: string, n: nat, c: char)
    requires n <= |s| && c !in s
    ensures c !in s[..n]
  {
    forall k | 0 <= k < n ensures s[..n][k] != c {
      assert s[k] in s;
    }
  }

  lemma NameShape(hist: string, stem: string)
    requires '/' !in stem
    ensures var name := hist + "_" + stem + ".txt";
      |name| >= |hist| + 5 &&
      name[..|hist| + 1] == hist + "_" && name[|name| - 4..] == ".txt" &&
      '/' !in name[|hist|..] &&
      ('/' !in hist ==> '/' !in name)
  {
    var name := hist + "_" + stem + ".txt";
    assert name[..|hist| + 1] == hist + "_";
    assert name[|name| - 4..] == ".txt";
    assert name[|hist|..] == "_" + stem + ".txt";
    assert name == hist + name[|hist|..];
  }

  /** Directories do not matter: only the base name of the input enters the
      output name, so the same file in two directories maps to one name. */
  lemma BasenameIgnoresDirectory(dir: string, path: string)
    ensures Basename(dir + "/" + path) == Basename(path)
  {
    var full := dir + "/" + path;
    var r := LastIndexOf(path, '/');
    var at := |dir| + 1 + r;
    assert forall k :: |dir| < k < |full| ==> full[k] == path[k - |dir| - 1];
    assert full[at] == '/' by {
      if r < 0 { assert full[|dir|] == '/'; } else { assert full[at] == path[r]; }
    }
    assert forall k :: at < k < |full| ==> full[k] != '/' by {
      forall k | at < k < |full| ensures full[k] != '/' {
        assert full[k] == path[k - |dir| - 1];
      }
    }
    LastIndexOfIs(full, '/', at);
    assert full[|dir| + 1 + r + 1..] == path[r + 1..];
  }

  lemma OutputNameIgnoresDirectory(hist: string, dir: string, path: string)
    ensures OutputName(hist, dir + "/" + path) == OutputName(hist, path)
  {
    BasenameIgnoresDirectory(dir, path);
  }

  /** Only the last extension is dropped: "a.tar.gz" gives "a.tar". */
  lemma StripExtensionDropsLast(name: string, ext: string)
    requires !AllDots(name) && '.' !in ext
    ensures StripExtension(name + "." + ext) == name
  {
    var s := name + "." + ext;
    LastIndexOfIs(s, '.', |name|);
    assert s[..|name|] == name;
  }

  /** Leading dots are not an extension: a name made of dots followed by a
      dot-free part is kept whole (".bashrc", "..x"). */
  lemma StripExtensionKeepsLeadingDots(dots: string, rest: string)
    requires AllDots(dots) && '.' !in rest
    ensures StripExtension(dots + rest) == dots + rest
  {
    var s := dots + rest;
    var dot := LastIndexOf(s, '.');
    LastIndexOfIs(s, '.', |dots| - 1);
    if dot >= 0 {
      assert AllDots(s[..dot]);
    }
  }

  /** The usual case: dir/run.root with histogram H is written to H_run.txt. */
  lemma OutputNameOfTypicalPath(hist: string, dir: string, name: string, ext: string)
    requires '/' !in name && '/' !in ext && '.' !in ext && !AllDots(name)
    ensures OutputName(hist, dir + "/" + name + "." + ext) == hist + "_" + name + ".txt"
  {
    var base := name + "." + ext;
    assert dir + "/" + name + "." + ext == dir + "/" + base;
    BasenameIgnoresDirectory(dir, base);
    assert '/' !in base;
    LastIndexOfIs(base, '/', -1);
    assert base[0..] == base;
    StripExtensionDropsLast(name, ext);
  }
}
