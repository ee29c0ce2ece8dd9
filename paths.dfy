/** POSIX path handling as pdf2img.py uses it: os.path.basename, os.path.splitext,
    os.path.join, and the names of every artifact derived from a document's base name. */
module Paths {
  type Path = string

  /** Python's str.rfind for one character: the index of the last occurrence of c, or -1. */
  function RFind(s: string, c: char): (r: int)
    ensures -1 <= r < |s|
    ensures r >= 0 ==> s[r] == c
    ensures forall j :: r < j < |s| ==> s[j] != c
    decreases |s|
  {
    if s == [] then -1
    else if s[|s| - 1] == c then |s| - 1
    else RFind(s[..|s| - 1], c)
  }

  /** os.path.basename: everything after the last '/'. The result is the longest suffix
      of p that holds no '/'. */
  function Basename(p: Path): (name: string)
    ensures '/' !in name
    ensures |name| <= |p| && name == p[|p| - |name|..]
    ensures |name| < |p| ==> p[|p| - |name| - 1] == '/'
  {
    p[RFind(p, '/') + 1..]
  }

  /** The scan of CPython's splitext over the characters between the last separator and
      the last dot: is any of s[lo..hi] something other than '.'? */
  function NonDotBetween(s: string, lo: nat, hi: nat): (b: bool)
    requires lo <= hi <= |s|
    ensures b <==> exists j :: lo <= j < hi && s[j] != '.'
    decreases hi - lo
  {
    if lo == hi then false
    else if s[lo] != '.' then true
    else NonDotBetween(s, lo + 1, hi)
  }

  /** os.path.splitext(p)[0], following CPython's algorithm: the extension starts at the
      last dot after the last '/', unless every character before that dot in the
      component is a dot as well. */
  function SplitExtRoot(p: Path): (root: string)
  {
    var sep := RFind(p, '/');
    var dot := RFind(p, '.');
    if dot > sep && NonDotBetween(p, sep + 1, dot) then p[..dot] else p
  }

  /** os.path.splitext(os.path.basename(p))[0], computed identically by pdf2img and by
      both batch drivers. */
  function BaseName(p: Path): (base: string)
  {
    SplitExtRoot(Basename(p))
  }

  /** Reference definition of "a file name with an extension": there is a last dot in the
      name and it is not one of the name's leading dots. */
  ghost predicate HasExtension(name: string)
  {
    exists d :: 0 <= d < |name| && name[d] == '.' && LastDotAt(name, d) && NotLeadingDot(name, d)
  }

  ghost predicate LastDotAt(name: string, d: int)
    requires 0 <= d < |name|
  {
    forall j :: d < j < |name| ==> name[j] != '.'
  }

  ghost predicate NotLeadingDot(name: string, d: int)
    requires 0 <= d <= |name|
  {
    exists j :: 0 <= j < d && name[j] != '.'
  }

  /** The base name is the file name cut at the start of its extension: a prefix of the
      last path component, without '/', shorter than it exactly when the component has an
      extension, and then cut at the last dot. */
  lemma BaseNameIsStem(p: Path)
    ensures '/' !in BaseName(p)
    ensures |BaseName(p)| <= |Basename(p)| && BaseName(p) == Basename(p)[..|BaseName(p)|]
    ensures BaseName(p) != Basename(p) <==> HasExtension(Basename(p))
    ensures BaseName(p) != Basename(p) ==>
              Basename(p)[|BaseName(p)|] == '.' && LastDotAt(Basename(p), |BaseName(p)|)
  {
    var n := Basename(p);
    assert RFind(n, '/') == -1;
    var dot := RFind(n, '.');
    if dot > -1 && NonDotBetween(n, 0, dot) {
      assert BaseName(p) == n[..dot];
      assert HasExtension(n) by {
        assert n[dot] == '.' && LastDotAt(n, dot) && NotLeadingDot(n, dot);
      }
    } else {
      assert BaseName(p) == n;
      forall d | 0 <= d < |n| && n[d] == '.' && LastDotAt(n, d)
        ensures !NotLeadingDot(n, d)
      {
        assert d == dot;
      }
    }
  }

  /** os.path.join(dir, name) for POSIX paths. */
  function Join(dir: Path, name: Path): (path: Path)
  {
    if |name| > 0 && name[0] == '/' then name
    else if dir == [] || dir[|dir| - 1] == '/' then dir + name
    else dir + "/" + name
  }

  /** Joining a directory with a file name that holds no '/' gives a path whose last
      component is that name. */
  lemma {:induction false} JoinBasename(dir: Path, name: string)
    requires '/' !in name
    ensures Basename(Join(dir, name)) == name
  {
    var s := Join(dir, name);
    var lead := s[..|s| - |name|];
    assert s == lead + name;
    assert lead == [] || lead[|lead| - 1] == '/';
    var b := Basename(s);
    assert |b| == |name|;
  }

  /** Two joined paths whose last components hold no '/' can only coincide when those
      components are the same. */
  lemma JoinSameFile(dir1: Path, name1: string, dir2: Path, name2: string)
    requires '/' !in name1 && '/' !in name2
    requires Join(dir1, name1) == Join(dir2, name2)
    ensures name1 == name2
  {
    JoinBasename(dir1, name1);
    JoinBasename(dir2, name2);
  }

  /** A file found by the pattern "*.pdf": a name that does not start with '.' ends in
      ".pdf", and its base name is the part before ".pdf". */
  lemma GlobbedBaseName(dir: Path, stem: string)
    requires '/' !in stem && stem != [] && stem[0] != '.'
    ensures BaseName(Join(dir, stem + ".pdf")) == stem
  {
    var n := stem + ".pdf";
    forall j | 0 <= j < |n| ensures n[j] != '/' {
      if j < |stem| { assert n[j] == stem[j]; }
    }
    JoinBasename(dir, n);
    PdfExtensionSplit(stem);
  }

  /** splitext cuts "<stem>.pdf" at its ".pdf" when stem holds no '/' and does not start
      with '.'. */
  lemma PdfExtensionSplit(stem: string)
    requires '/' !in stem && stem != [] && stem[0] != '.'
    ensures SplitExtRoot(stem + ".pdf") == stem
  {
    var n := stem + ".pdf";
    assert n[|stem|] == '.';
    forall j | |stem| < j < |n| ensures n[j] != '.' {
      assert n[j] == ".pdf"[j - |stem|];
    }
    RFindAt(n, '.', |stem|);
    forall j | 0 <= j < |n| ensures n[j] != '/' {
      if j < |stem| { assert n[j] == stem[j]; }
    }
    assert RFind(n, '/') == -1;
    assert NonDotBetween(n, 0, |stem|) by { assert n[0] == stem[0]; }
    assert n[..|stem|] == stem;
  }

  /** RFind finds the one occurrence of c that has none after it. */
  lemma RFindAt(s: string, c: char, k: nat)
    requires k < |s| && s[k] == c
    requires forall j :: k < j < |s| ==> s[j] != c
    ensures RFind(s, c) == k
  {
  }

  /** str(n) for a non-negative integer: decimal digits, no leading zero. */
  function NatToString(n: nat): (s: string)
    ensures |s| >= 1
    ensures forall k :: 0 <= k < |s| ==> '0' <= s[k] <= '9'
    ensures s[0] == '0' ==> n == 0
    decreases n
  {
    var last := (48 + n % 10) as char;
    if n < 10 then [last] else NatToString(n / 10) + [last]
  }

  /** The value of a string of decimal digits; the inverse of NatToString. */
  function DecimalValue(s: string): (value: int)
    decreases |s|
  {
    if s == [] then 0 else 10 * DecimalValue(s[..|s| - 1]) + (s[|s| - 1] as int - 48)
  }

  lemma {:induction false} DecimalRoundTrip(n: nat)
    ensures DecimalValue(NatToString(n)) == n
  {
    var s := NatToString(n);
    if n >= 10 {
      DecimalRoundTrip(n / 10);
      assert s[..|s| - 1] == NatToString(n / 10);
    }
  }

  /** Different page numbers are written differently. */
  lemma NatToStringInjective(i: nat, j: nat)
    requires NatToString(i) == NatToString(j)
    ensures i == j
  {
    DecimalRoundTrip(i);
    DecimalRoundTrip(j);
  }

  /** "<base>_<i>.jpg": the file name of page i's image. */
  function ImageName(base: string, i: nat): (name: string)
  {
    base + "_" + NatToString(i) + ".jpg"
  }

  /** "<base>_img": the image directory pdf2img uses when it is given none. */
  function DefaultImageDir(base: string): (dir: Path)
  {
    base + "_img"
  }

  /** "<base>.txt": the transcript's file name, in both pipelines. */
  function TextName(base: string): (name: string)
  {
    base + ".txt"
  }

  /** "<base>_tagged.pdf": the file name of the re-recognised or copied PDF. */
  function TaggedName(base: string): (name: string)
  {
    base + "_tagged.pdf"
  }

  function ImagePath(dir: Path, base: string, i: nat): (path: Path)
  {
    Join(dir, ImageName(base, i))
  }

  function TextPath(dir: Path, base: string): (path: Path)
  {
    Join(dir, TextName(base))
  }

  function TaggedPath(dir: Path, base: string): (path: Path)
  {
    Join(dir, TaggedName(base))
  }

  /** An image name determines both the base name and the page number: the last '_' of
      the name precedes the page number, whose digits hold no '_'. */
  lemma ImageNameInjective(base1: string, i: nat, base2: string, j: nat)
    requires ImageName(base1, i) == ImageName(base2, j)
    ensures base1 == base2 && i == j
  {
    var d1, d2 := NatToString(i), NatToString(j);
    var t1, t2 := base1 + "_" + d1, base2 + "_" + d2;
    assert t1 + ".jpg" == t2 + ".jpg";
    assert t1 == t2 by {
      assert t1 == (t1 + ".jpg")[..|t1|];
      assert t2 == (t2 + ".jpg")[..|t2|];
    }
    LastUnderscore(base1, d1);
    LastUnderscore(base2, d2);
    assert base1 == t1[..|base1|] == t2[..|base2|] == base2;
    assert d1 == t1[|base1| + 1..] == t2[|base2| + 1..] == d2;
    NatToStringInjective(i, j);
  }

  lemma LastUnderscore(base: string, digits: string)
    requires forall k :: 0 <= k < |digits| ==> '0' <= digits[k] <= '9'
    ensures RFind(base + "_" + digits, '_') == |base|
  {
    var u := "_" + digits;
    var t := base + u;
    assert base + "_" + digits == t;
    forall m | 0 < m < |u| ensures u[m] != '_' {
      assert u[m] == digits[m - 1];
    }
    forall k | |base| < k < |t| ensures t[k] != '_' {
      assert t[k] == u[k - |base|];
    }
    assert t[|base|] == u[0];
    RFindAt(t, '_', |base|);
  }


  /** The artifact names of one base name never collide with those of another, nor with
      each other: each name settles both its kind and its base name. */
  lemma ArtifactNamesDistinct(base1: string, base2: string, i: nat)
    ensures TextName(base1) == TextName(base2) ==> base1 == base2
    ensures TaggedName(base1) == TaggedName(base2) ==> base1 == base2
    ensures ImageName(base1, i) != TextName(base2)
    ensures TaggedName(base1) != TextName(base2)
  {
    if TextName(base1) == TextName(base2) {
      assert base1 == TextName(base1)[..|base1|];
      assert base2 == TextName(base2)[..|base2|];
    }
    if TaggedName(base1) == TaggedName(base2) {
      assert base1 == TaggedName(base1)[..|base1|];
      assert base2 == TaggedName(base2)[..|base2|];
    }
    var m := ImageName(base1, i);
    assert m[|m| - 3] == 'j';
    assert TextName(base2)[|TextName(base2)| - 3] == 't';
    assert TaggedName(base1)[|TaggedName(base1)| - 3] == 'p';
  }

  /** Names built from a base name without '/' hold no '/' themselves. */
  lemma ArtifactNamesFlat(base: string, i: nat)
    requires '/' !in base
    ensures '/' !in ImageName(base, i)
    ensures '/' !in TextName(base)
    ensures '/' !in TaggedName(base)
  {
    var d := NatToString(i);
    var m := ImageName(base, i);
    assert forall k :: 0 <= k < |m| ==> m[k] == (if k < |base| then base[k] else if k == |base| then '_'
      else if k < |base| + 1 + |d| then d[k - |base| - 1] else ".jpg"[k - |base| - 1 - |d|]);
    var t := TextName(base);
    assert forall k :: 0 <= k < |t| ==> t[k] == (if k < |base| then base[k] else ".txt"[k - |base|]);
    var g := TaggedName(base);
    assert forall k :: 0 <= k < |g| ==> g[k] == (if k < |base| then base[k] else "_tagged.pdf"[k - |base|]);
  }

  predicate EndsWith(s: string, suffix: string)
  {
    |suffix| <= |s| && s[|s| - |suffix|..] == suffix
  }

  /** The base name an artifact's file name was made from: the inverse of TextName,
      TaggedName and ImageName. */
  function ArtifactBase(name: string): (base: string)
  {
    if EndsWith(name, ".txt") then name[..|name| - 4]
    else if EndsWith(name, "_tagged.pdf") then name[..|name| - 11]
    else if EndsWith(name, ".jpg") then
      var stem := name[..|name| - 4];
      var u := RFind(stem, '_');
      if u >= 0 then stem[..u] else stem
    else name
  }

  /** A text file's name gives back its base name. */
  lemma TextNameRecovers(base: string)
    ensures ArtifactBase(TextName(base)) == base
  {
    var t := TextName(base);
    assert t[|t| - 4..] == ".txt" && t[..|t| - 4] == base;
  }

  /** A tagged-output file's name gives back its base name. */
  lemma TaggedNameRecovers(base: string)
    ensures ArtifactBase(TaggedName(base)) == base
  {
    var g := TaggedName(base);
    assert g[|g| - 4..] == ".pdf";
    assert g[|g| - 11..] == "_tagged.pdf" && g[..|g| - 11] == base;
  }

  /** A page image's name gives back its base name. */
  lemma ImageNameRecovers(base: string, i: nat)
    ensures ArtifactBase(ImageName(base, i)) == base
  {
    var stem := base + "_" + NatToString(i);
    var m := stem + ".jpg";
    assert ImageName(base, i) == m;
    assert m[|m| - 4..] == ".jpg" && m[..|m| - 4] == stem;
    assert m[|m| - 1] == 'g';
    assert !EndsWith(m, ".txt") && !EndsWith(m, "_tagged.pdf");
    LastUnderscore(base, NatToString(i));
    assert stem[..|base|] == base;
  }

}
