/** The file-name rules of the converter: the client's download name
    (text before the first '.'), the server's output name (Python's
    `os.path.splitext`, which splits at the last '.'), and the
    `os.path.join` / basename rules the server uses for its paths. */
module FileNames {

  /** The text placed between a file's stem and the target format code. */
  const ConvertedMark: string := "_converted."

  /** The text of `s` before the first occurrence of `c`, or all of `s`
      when `c` does not occur: JavaScript's `s.split(c)[0]`. */
  function PrefixBefore(s: string, c: char): (r: string)
    ensures r <= s
    ensures c !in r
    ensures |r| < |s| ==> s[|r|] == c
  {
    if s == [] || s[0] == c then [] else [s[0]] + PrefixBefore(s[1..], c)
  }

  /** The three properties of PrefixBefore determine it. */
  lemma PrefixBeforeUnique(s: string, c: char, p: string)
    requires p <= s && c !in p
    requires |p| == |s| || s[|p|] == c
    ensures PrefixBefore(s, c) == p
  {
  }

  /** The index of the last `c` in `s`, or -1: Python's `str.rfind`. */
  function LastIndexOf(s: string, c: char): (i: int)
    ensures -1 <= i < |s|
    ensures i >= 0 ==> s[i] == c
  {
    if s == [] then -1
    else if s[|s| - 1] == c then |s| - 1
    else LastIndexOf(s[..|s| - 1], c)
  }

  /** No `c` follows the index LastIndexOf reports, at any position. */
  lemma LastIndexIsLast(s: string, c: char)
    ensures forall k :: LastIndexOf(s, c) < k < |s| ==> s[k] != c
  {
    forall k | LastIndexOf(s, c) < k < |s| ensures s[k] != c {
      NoneAfterLastIndex(s, c, k);
    }
  }

  /** No `c` follows the index LastIndexOf reports. */
  lemma {:induction false} NoneAfterLastIndex(s: string, c: char, k: int)
    requires LastIndexOf(s, c) < k < |s|
    ensures s[k] != c
  {
    if s[|s| - 1] != c && k < |s| - 1 {
      NoneAfterLastIndex(s[..|s| - 1], c, k);
    }
  }

  predicate AllDots(s: string)
  {
    forall k :: 0 <= k < |s| ==> s[k] == '.'
  }

  /** Where Python's `posixpath.splitext(p)` starts the extension, or |p|
      for none: at the last '.' of the last path component, unless
      everything before that '.' in the component is dots (".bashrc" and
      "..x" have no extension). */
  function ExtensionStart(p: string): (i: int)
    ensures 0 <= i <= |p|
    ensures i < |p| ==> p[i] == '.'
  {
    var sep := LastIndexOf(p, '/');
    var dot := LastIndexOf(p, '.');
    if dot > sep && !AllDots(p[sep + 1..dot]) then dot else |p|
  }

  /** `os.path.splitext(p)`: the stem and the extension. */
  function SplitExt(p: string): (r: (string, string))
    ensures r.0 + r.1 == p
    ensures r.1 != [] ==> r.1[0] == '.'
  {
    var i := ExtensionStart(p);
    assert p[..i] + p[i..] == p;
    (p[..i], p[i..])
  }

  /** The extension holds no '.' after its first character, and no '/'. */
  lemma ExtensionHasNoDotOrSlash(p: string)
    ensures var ext := SplitExt(p).1;
      forall k :: 1 <= k < |ext| ==> ext[k] != '.' && ext[k] != '/'
  {
    var i := ExtensionStart(p);
    var ext := SplitExt(p).1;
    if i < |p| {
      forall k | 1 <= k < |ext| ensures ext[k] != '.' && ext[k] != '/' {
        assert ext[k] == p[i + k];
        NoneAfterLastIndex(p, '.', i + k);
        NoneAfterLastIndex(p, '/', i + k);
      }
    }
  }

  /** A name without '.' has no extension. */
  lemma NoDotNoExtension(p: string)
    requires '.' !in p
    ensures SplitExt(p) == (p, [])
  {
    assert LastIndexOf(p, '.') < 0;
    assert ExtensionStart(p) == |p|;
    assert p[..|p|] == p;
  }

  /** For a plain file name (no '/', not starting with '.') that contains a
      '.', the stem is everything before the LAST '.'. */
  lemma StemEndsAtLastDot(p: string, i: nat)
    requires '/' !in p && i < |p| && p[i] == '.' && p[0] != '.'
    ensures LastIndexOf(p, '.') >= i
    ensures SplitExt(p).0 == p[..LastIndexOf(p, '.')]
  {
    var dot := LastIndexOf(p, '.');
    if dot < i {
      NoneAfterLastIndex(p, '.', i);
    }
    assert LastIndexOf(p, '/') == -1;
    assert !AllDots(p[0..dot]) by {
      assert p[0..dot][0] == p[0];
    }
    assert ExtensionStart(p) == dot;
  }

  /** `os.path.join(dir, name)` for one component: an absolute `name`
      replaces `dir`; otherwise a '/' is inserted unless `dir` is empty
      or already ends in one. */
  function Join(dir: string, name: string): (r: string)
    ensures |r| >= |name|
    ensures name != [] && name[0] == '/' ==> r == name
    ensures (name == [] || name[0] != '/') ==> r[|r| - |name|..] == name
    ensures (name == [] || name[0] != '/') && (dir == [] || dir[|dir| - 1] == '/') ==> r == dir + name
    ensures (name == [] || name[0] != '/') && dir != [] && dir[|dir| - 1] != '/' ==> r == dir + "/" + name
  {
    if name != [] && name[0] == '/' then name
    else if dir == [] || dir[|dir| - 1] == '/' then dir + name
    else dir + "/" + name
  }

  /** The last path component: `os.path.basename`, which is the name
      Flask's `send_file(path, as_attachment=True)` offers for download. */
  function BaseName(path: string): (r: string)
    ensures |r| == |path| - LastIndexOf(path, '/') - 1
    ensures r == path[|path| - |r|..]
    ensures forall k :: 0 <= k < |r| ==> r[k] != '/'
  {
    LastIndexIsLast(path, '/');
    path[LastIndexOf(path, '/') + 1..]
  }

  /** Joining a plain name to a folder and taking the basename gives the
      name back. */
  lemma BaseNameOfJoin(dir: string, name: string)
    requires '/' !in name
    ensures BaseName(Join(dir, name)) == name
  {
    var r := Join(dir, name);
    var k := |r| - |name|;
    assert r[k..] == name;
    if dir == [] {
      assert k == 0;
    } else if dir[|dir| - 1] == '/' {
      assert r[k - 1] == dir[|dir| - 1];
    } else {
      assert r == dir + "/" + name;
      assert r[k - 1] == '/';
    }
    forall j | k <= j < |r| ensures r[j] != '/' {
      assert r[j] == name[j - k];
    }
    var li := LastIndexOf(r, '/');
    if li < k - 1 {
      NoneAfterLastIndex(r, '/', k - 1);
    }
    assert li == k - 1;
  }

  /** The client's download name: the text of the original name before
      its first '.', then "_converted.", then the target format code. */
  function DownloadName(fileName: string, target: string): (r: string)
    ensures |r| >= |ConvertedMark| + |target|
    ensures r[|r| - |ConvertedMark| - |target|..] == ConvertedMark + target
    ensures r[..|r| - |ConvertedMark| - |target|] <= fileName
    ensures '.' !in r[..|r| - |ConvertedMark| - |target|]
  {
    PrefixBefore(fileName, '.') + ConvertedMark + target
  }

  /** The download name is determined by the first-'.' rule: whatever part
      of the name runs up to its first '.' (or to its end) is the stem. */
  lemma DownloadNameFromFirstDot(fileName: string, target: string, stem: string)
    requires stem <= fileName && '.' !in stem
    requires stem == fileName || fileName[|stem|] == '.'
    ensures DownloadName(fileName, target) == stem + ConvertedMark + target
  {
    PrefixBeforeUnique(fileName, '.', stem);
  }

  /** The server's output name: the `splitext` stem of the sanitized upload
      name, then "_converted.", then the target. */
  function OutputFilename(safeName: string, target: string): string
  {
    SplitExt(safeName).0 + ConvertedMark + target
  }

  /** The output name ends with "_converted." and the target, and what
      precedes that is a prefix of the sanitized name. */
  lemma OutputFilenameShape(safeName: string, target: string)
    ensures var r := OutputFilename(safeName, target);
      && |r| >= |ConvertedMark| + |target|
      && r[|r| - |ConvertedMark| - |target|..] == ConvertedMark + target
      && r[..|r| - |ConvertedMark| - |target|] <= safeName
  {
    var (stem, ext) := SplitExt(safeName);
    assert stem + ext == safeName;
    var r := OutputFilename(safeName, target);
    assert r == stem + (ConvertedMark + target);
    assert r[..|stem|] == stem;
  }

  /** A name without any '.' is kept whole by both rules. */
  lemma NoDotKeepsWholeName(name: string, target: string)
    requires '.' !in name
    ensures DownloadName(name, target) == name + ConvertedMark + target
    ensures OutputFilename(name, target) == name + ConvertedMark + target
  {
    PrefixBeforeUnique(name, '.', name);
    NoDotNoExtension(name);
  }

  /** Applied to the same plain name with exactly one '.', not at its
      start, the client's rule and the server's rule give the same name.
      (The server applies its rule to the sanitized name, which can differ
      from the name the client sees.) */
  lemma {:induction false} NamesAgreeOnOneDot(name: string, i: nat, target: string)
    requires '/' !in name && 0 < i < |name| && name[i] == '.'
    requires forall k :: 0 <= k < |name| && k != i ==> name[k] != '.'
    ensures DownloadName(name, target) == OutputFilename(name, target)
  {
    PrefixBeforeUnique(name, '.', name[..i]);
    StemEndsAtLastDot(name, i);
  }

  /** Applied to the same name with two dots, the two rules give different
      names: the client's drops everything from the first '.', the
      server's only the last extension. */
  lemma {:induction false} NamesDifferOnTwoDots(name: string, i: nat, j: nat, target: string)
    requires i < j < |name| && name[i] == '.' && name[j] == '.'
    ensures DownloadName(name, target) != OutputFilename(name, target)
  {
    var front := PrefixBefore(name, '.');
    assert |front| <= i;
    var back := SplitExt(name).0;
    if LastIndexOf(name, '.') < j {
      NoneAfterLastIndex(name, '.', j);
    }
    assert |back| >= LastIndexOf(name, '.') >= j;
    assert |DownloadName(name, target)| == |front| + |ConvertedMark| + |target|;
    assert |OutputFilename(name, target)| == |back| + |ConvertedMark| + |target|;
  }

  /** When `i` is the last '.' of a plain name, the stem is the text before it. */
  lemma StemBeforeFinalDot(p: string, i: nat)
    requires '/' !in p && i < |p| && p[i] == '.' && p[0] != '.'
    requires forall k :: i < k < |p| ==> p[k] != '.'
    ensures SplitExt(p).0 == p[..i]
  {
    StemEndsAtLastDot(p, i);
  }

  /** A plain name whose only '.' is its first character (a hidden file
      such as ".env") has no extension. */
  lemma {:induction false} DotfileHasNoExtension(p: string)
    requires '/' !in p && |p| > 0 && p[0] == '.'
    requires forall k :: 0 < k < |p| ==> p[k] != '.'
    ensures SplitExt(p) == (p, [])
  {
    var dot := LastIndexOf(p, '.');
    if dot < 0 {
      NoneAfterLastIndex(p, '.', 0);
    }
    assert LastIndexOf(p, '/') == -1;
    assert dot == 0;
    assert ExtensionStart(p) == |p|;
    assert p[..|p|] == p;
  }

  /** The example of a multi-dot name on the client: only "movie" survives. */
  lemma ClientMultiDotExample(name: string)
    requires name == "movie.part1.mov"
    ensures DownloadName(name, "mp4") == "movie_converted.mp4"
  {
    assert name[..5] == "movie";
    DownloadNameFromFirstDot(name, "mp4", "movie");
  }

  /** The same name on the server keeps "movie.part1". */
  lemma ServerMultiDotExample(name: string)
    requires name == "movie.part1.mov"
    ensures OutputFilename(name, "mp4") == "movie.part1_converted.mp4"
  {
    assert name[12] != '.' && name[13] != '.' && name[14] != '.';
    StemBeforeFinalDot(name, 11);
    assert name[..11] == "movie.part1";
  }

  /** On the string ".env", `splitext` finds no extension, while the
      client's rule keeps nothing before its first '.'. */
  lemma HiddenFileExample(name: string)
    requires name == ".env"
    ensures DownloadName(name, "mp4") == "_converted.mp4"
    ensures OutputFilename(name, "mp4") == ".env_converted.mp4"
  {
    DownloadNameFromFirstDot(name, "mp4", "");
    assert name[1] != '.' && name[2] != '.' && name[3] != '.';
    DotfileHasNoExtension(name);
  }
}
