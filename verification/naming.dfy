/** Naming of the output animation: the upload's file name loses its final
    extension (as POSIX os.path.splitext removes it), gains the `rotating_`
    prefix and the `.gif` extension, and is joined under the gif folder (as
    POSIX os.path.join joins two components). */
module Naming {
  import opened Results

  /** Index of the last occurrence of c in s, or -1 when there is none. */
  function LastIndexOf(s: string, c: char): (i: int)
    ensures -1 <= i < |s|
    ensures 0 <= i ==> s[i] == c
    ensures forall j :: i < j < |s| ==> s[j] != c
    decreases |s|
  {
    if |s| == 0 then -1
    else if s[|s| - 1] == c then |s| - 1
    else LastIndexOf(s[..|s| - 1], c)
  }

  /** Any index with LastIndexOf's two properties is the one it returns. */
  lemma LastIndexOfUnique(s: string, c: char, i: int)
    requires -1 <= i < |s|
    requires 0 <= i ==> s[i] == c
    requires forall j :: i < j < |s| ==> s[j] != c
    ensures LastIndexOf(s, c) == i
  {
  }

  /** The part of a path after its last '/'. */
  function BaseName(p: string): (b: string)
    ensures '/' !in b
    ensures exists k :: 0 <= k <= |p| && p[k..] == b
  {
    var k := LastIndexOf(p, '/') + 1;
    assert forall j :: 0 <= j < |p[k..]| ==> p[k..][j] == p[k + j];
    p[k..]
  }

  /** A path without a separator is its own base name. */
  lemma NoSeparatorBaseName(p: string)
    requires '/' !in p
    ensures BaseName(p) == p
  {
    LastIndexOfUnique(p, '/', -1);
  }

  /** True when some character of s is not a dot. */
  predicate HasNonDot(s: string) {
    exists i :: 0 <= i < |s| && s[i] != '.'
  }

  /** A file name cut in two at its extension. */
  datatype Split = Split(root: string, ext: string)

  /** An extension: a dot followed by characters that are neither dots nor
      path separators. */
  predicate IsExtension(e: string) {
    |e| >= 1 && e[0] == '.' && forall i :: 1 <= i < |e| ==> e[i] != '.' && e[i] != '/'
  }

  /** Cutting p at a dot that follows its last '/' and that no later dot
      follows leaves a well-formed extension, and the base name of what
      remains runs from that '/' to the dot. */
  lemma SplitAtDot(p: string, sep: int, dot: int)
    requires -1 <= sep < dot < |p| && p[dot] == '.'
    requires 0 <= sep ==> p[sep] == '/'
    requires forall j :: sep < j < |p| ==> p[j] != '/'
    requires forall j :: dot < j < |p| ==> p[j] != '.'
    ensures IsExtension(p[dot..])
    ensures BaseName(p[..dot]) == p[sep + 1..dot]
  {
    LastIndexOfUnique(p[..dot], '/', sep);
  }

  /** POSIX os.path.splitext: the extension starts at the last dot, provided
      that dot lies after the last '/' and is preceded, within the base name,
      by some character other than a dot (so ".bashrc" has no extension).
      Root and extension concatenate back to the input; the extension is
      empty or a well-formed extension of a root whose base name is not all
      dots. */
  function SplitExt(p: string): (r: Split)
    ensures r.root + r.ext == p
    ensures r.ext == [] || (IsExtension(r.ext) && HasNonDot(BaseName(r.root)))
  {
    var sep := LastIndexOf(p, '/');
    var dot := LastIndexOf(p, '.');
    if dot > sep && HasNonDot(p[sep + 1..dot]) then
      SplitAtDot(p, sep, dot);
      assert p[..dot] + p[dot..] == p;
      Split(p[..dot], p[dot..])
    else
      assert p + [] == p;
      Split(p, [])
  }

  /** The upload's file name without its final extension. */
  function Stem(filename: string): string {
    SplitExt(filename).root
  }

  /** Splitting off an extension undoes appending it: whenever the root's base
      name is not all dots, SplitExt(root + ext) returns exactly (root, ext). */
  lemma SplitExtOfJoin(root: string, ext: string)
    requires IsExtension(ext)
    requires HasNonDot(BaseName(root))
    ensures SplitExt(root + ext) == Split(root, ext)
  {
    var p := root + ext;
    var sep := LastIndexOf(root, '/');
    LastIndexOfUnique(p, '/', sep);
    LastIndexOfUnique(p, '.', |root|);
    assert p[..|root|] == root;
    assert p[|root|..] == ext;
    assert p[sep + 1..|root|] == BaseName(root);
  }

  /** POSIX os.path.join of two components: an absolute second component
      replaces the first; otherwise a '/' is inserted unless the first is
      empty or already ends in one. The result always ends with the second
      component, and starts with the first unless the second is absolute. */
  function JoinPath(a: string, b: string): (r: string)
    ensures |r| >= |b| && r[|r| - |b|..] == b
    ensures (b == [] || b[0] != '/') ==> |r| >= |a| && r[..|a|] == a
    ensures a != [] && a[|a| - 1] != '/' && b != [] && b[0] != '/' ==> r == a + "/" + b
  {
    if b != [] && b[0] == '/' then b
    else if a == [] || a[|a| - 1] == '/' then a + b
    else a + "/" + b
  }

  /** Folder the animations are written to. */
  const GifFolder: string := "static/gifs"

  const GifPrefix: string := "rotating_"
  const GifSuffix: string := ".gif"

  /** Name of the animation made from an upload. */
  function GifName(filename: string): string {
    GifPrefix + Stem(filename) + GifSuffix
  }

  /** Path the animation is saved to. */
  function WrittenPath(filename: string): string {
    JoinPath(GifFolder, GifName(filename))
  }

  /** Path handed to the page template, spelled out in the handler. */
  function TemplatePath(filename: string): string {
    "static/gifs/rotating_" + Stem(filename) + ".gif"
  }

  /** The folder, separator and prefix spell the head of the template path. */
  lemma TemplateHead()
    ensures GifFolder + "/" + GifPrefix == "static/gifs/rotating_"
  {
  }

  /** Joining the gif folder with the animation name made from any stem
      spells the path the handler writes out by hand. */
  lemma JoinedGifName(stem: string)
    ensures JoinPath(GifFolder, GifPrefix + stem + GifSuffix) == "static/gifs/rotating_" + stem + ".gif"
  {
    TemplateHead();
  }

  /** The page is always pointed at the file that was written. */
  lemma TemplatePathIsWrittenPath(filename: string)
    ensures WrittenPath(filename) == TemplatePath(filename)
  {
    JoinedGifName(Stem(filename));
  }

  /** Recovers the stem from an animation name, if it has that shape. */
  function ParseGifName(name: string): (r: Option<string>)
    ensures r.Some? ==> name == GifPrefix + r.value + GifSuffix
    ensures r.None? ==> forall s :: name != GifPrefix + s + GifSuffix
  {
    if |name| >= |GifPrefix| + |GifSuffix|
      && name[..|GifPrefix|] == GifPrefix
      && name[|name| - |GifSuffix|..] == GifSuffix
    then
      var stem := name[|GifPrefix|..|name| - |GifSuffix|];
      assert name == GifPrefix + stem + GifSuffix;
      Some(stem)
    else
      assert forall s :: (GifPrefix + s + GifSuffix)[..|GifPrefix|] == GifPrefix;
      assert forall s :: var n := GifPrefix + s + GifSuffix; n[|n| - |GifSuffix|..] == GifSuffix;
      None
  }

  /** An animation name determines the stem it was made from. */
  lemma GifNameRoundTrip(filename: string)
    ensures ParseGifName(GifName(filename)) == Some(Stem(filename))
  {
  }

  /** Only the last of several extensions is removed. */
  lemma StemExample()
    ensures Stem("archive.tar.gz") == "archive.tar"
  {
    assert "archive.tar" + ".gz" == "archive.tar.gz";
    NoSeparatorBaseName("archive.tar");
    assert "archive.tar"[0] != '.';
    SplitExtOfJoin("archive.tar", ".gz");
  }

  /** A leading dot does not start an extension, and a name without a dot
      is its own stem. */
  lemma StemWithoutExtension()
    ensures Stem(".bashrc") == ".bashrc"
    ensures Stem("notes") == "notes"
  {
    assert LastIndexOf(".bashrc", '/') == -1;
    LastIndexOfUnique(".bashrc", '.', 0);
    assert LastIndexOf("notes", '.') == -1;
  }

  /** Two uploads are written to the same path exactly when their stems agree,
      so "cat.png" and "cat.jpg" overwrite each other's animation. */
  lemma SamePathIffSameStem(f1: string, f2: string)
    ensures WrittenPath(f1) == WrittenPath(f2) <==> Stem(f1) == Stem(f2)
  {
    TemplatePathIsWrittenPath(f1);
    TemplatePathIsWrittenPath(f2);
    var head := "static/gifs/rotating_";
    var t1, t2 := TemplatePath(f1), TemplatePath(f2);
    if t1 == t2 {
      assert Stem(f1) == t1[|head|..|t1| - 4];
      assert Stem(f2) == t2[|head|..|t2| - 4];
    }
  }
}
