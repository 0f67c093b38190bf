/**
 * The parts of boost::filesystem::path (version 3 semantics) that the
 * exporters use, for POSIX paths with '/' as the only separator:
 * filename, parent_path, extension, stem, replace_extension and operator/.
 */
module Paths {

  import opened Wrappers

  /** Index of the last occurrence of c in s. */
  function LastIndexOf(s: string, c: char): (r: Option<nat>)
    ensures r.None? <==> c !in s
    ensures r.Some? ==> r.value < |s| && s[r.value] == c && c !in s[r.value + 1..]
  {
    if s == [] then None
    else if s[|s| - 1] == c then Some(|s| - 1)
    else
      var r := LastIndexOf(s[..|s| - 1], c);
      assert r.Some? ==> s[r.value + 1..] == s[..|s| - 1][r.value + 1..] + [s[|s| - 1]];
      assert r.None? ==> s == s[..|s| - 1] + [s[|s| - 1]];
      r
  }

  /** path::filename: what follows the last separator. */
  function Filename(p: string): (r: string)
    ensures |r| <= |p|
  {
    match LastIndexOf(p, '/')
    case None => p
    case Some(k) => p[k + 1..]
  }

  /** The string without the separators it ends with. */
  function TrimSeparators(s: string): (r: string)
    ensures |r| <= |s|
    ensures r == [] || r[|r| - 1] != '/'
  {
    if s != [] && s[|s| - 1] == '/' then TrimSeparators(s[..|s| - 1]) else s
  }

  /** TrimSeparators keeps a prefix and drops only separators. */
  lemma {:induction false} TrimSeparatorsPrefix(s: string)
    ensures TrimSeparators(s) == s[..|TrimSeparators(s)|]
    ensures forall i :: |TrimSeparators(s)| <= i < |s| ==> s[i] == '/'
  {
    if s != [] && s[|s| - 1] == '/' {
      var r := TrimSeparators(s[..|s| - 1]);
      TrimSeparatorsPrefix(s[..|s| - 1]);
      assert s[..|s| - 1][..|r|] == s[..|r|];
      forall i | |r| <= i < |s| - 1 ensures s[i] == '/' {
        assert s[i] == s[..|s| - 1][i];
      }
    }
  }

  /**
   * path::parent_path: what precedes the last separator, without the
   * separators in front of it; "/" for a file in the root, and "" for a bare
   * name or a path made of separators only.
   */
  function ParentPath(p: string): (r: string)
    ensures |r| <= |p|
    ensures r == "" || r == "/" || r[|r| - 1] != '/'
  {
    match LastIndexOf(p, '/')
    case None => ""
    case Some(k) =>
      var head := TrimSeparators(p[..k]);
      if head != "" then head else if k + 1 < |p| then "/" else ""
  }

  /** path::extension: the filename's last '.' and what follows it; "" for "." and "..". */
  function Extension(p: string): (r: string)
    ensures r != [] ==> r[0] == '.'
    ensures |r| <= |Filename(p)| <= |p|
  {
    var name := Filename(p);
    if name == "." || name == ".." then ""
    else match LastIndexOf(name, '.')
      case None => ""
      case Some(k) => name[k..]
  }

  predicate HasExtension(p: string)
  {
    Extension(p) != ""
  }

  /** path::stem: the filename without its extension. */
  function Stem(p: string): string
  {
    var name := Filename(p);
    var ext := Extension(p);
    name[..|name| - |ext|]
  }

  /** path::replace_extension(e): drop the old extension, then append e with a leading '.' added when missing. */
  function ReplaceExtension(p: string, e: string): (r: string)
  {
    p[..|p| - |Extension(p)|] + (if e == "" then "" else if e[0] == '.' then e else "." + e)
  }

  /**
   * path::operator/ : an empty right side leaves the left side as it is;
   * otherwise the two are joined with one separator, which is left out when
   * the left side is empty or ends with one, or the right side starts with one.
   */
  function Join(dir: string, name: string): (r: string)
    ensures name == "" ==> r == dir
    ensures dir == "" ==> r == name
    ensures |r| >= |name| && r[|r| - |name|..] == name
  {
    if name == "" then dir
    else if dir == "" || dir[|dir| - 1] == '/' || name[0] == '/' then dir + name
    else dir + "/" + name
  }

  /** Appending characters other than c does not move the last c. */
  lemma {:induction false} LastIndexOfAppend(a: string, t: string, c: char)
    requires c !in t
    ensures LastIndexOf(a + t, c) == LastIndexOf(a, c)
    decreases |t|
  {
    if t == [] {
      assert a + t == a;
    } else {
      var at := a + t;
      assert at[|at| - 1] == t[|t| - 1];
      assert at[..|at| - 1] == a + t[..|t| - 1];
      LastIndexOfAppend(a, t[..|t| - 1], c);
    }
  }

  /** Appending a separator-free tail extends the filename by that tail. */
  lemma FilenameAppend(u: string, t: string)
    requires '/' !in t
    ensures Filename(u + t) == Filename(u) + t
  {
    LastIndexOfAppend(u, t, '/');
    var r := LastIndexOf(u, '/');
    if r.Some? {
      var k := r.value;
      assert (u + t)[k + 1..] == u[k + 1..] + t;
    }
  }

  /** A path that ends in "." + e, where e is a non-empty word without '.' or '/', has extension "." + e. */
  lemma ExtensionOfDottedSuffix(u: string, e: string)
    requires e != [] && '.' !in e && '/' !in e
    ensures Extension(u + "." + e) == "." + e
  {
    var p := u + "." + e;
    var head := Filename(u) + ".";
    assert Filename(p) == head + e by {
      var dotted := "." + e;
      DottedNoSeparator(e);
      assert p == u + dotted;
      FilenameAppend(u, dotted);
    }
    DottedName(head, e);
  }

  lemma DottedNoSeparator(e: string)
    requires '/' !in e
    ensures '/' !in "." + e
  {
    var dotted := "." + e;
    assert forall i :: 0 <= i < |dotted| ==> dotted[i] == '.' || dotted[i] == e[i - 1];
  }

  /** A name made of a head ending in '.' and a word e without '.': its last dot starts "." + e. */
  lemma DottedName(head: string, e: string)
    requires head != [] && head[|head| - 1] == '.'
    requires e != [] && '.' !in e
    ensures head + e != "." && head + e != ".."
    ensures LastIndexOf(head + e, '.') == Some(|head| - 1)
    ensures (head + e)[|head| - 1..] == "." + e
  {
    var name := head + e;
    assert name[|name| - 1] != '.' by {
      assert name[|name| - 1] == e[|e| - 1] && e[|e| - 1] in e;
    }
    assert LastIndexOf(name, '.') == Some(|head| - 1) by {
      LastIndexOfAppend(head, e, '.');
      assert LastIndexOf(head, '.') == Some(|head| - 1);
    }
    assert name[|head| - 1..] == [head[|head| - 1]] + e;
  }

  /**
   * A path made of a directory, a separator, a dot-free stem, a dot and a
   * word has that directory, without the separators it ends with, as its
   * parent path and that stem as its stem.
   */
  lemma SplitPath(dir: string, stem: string, e: string)
    requires TrimSeparators(dir) != "" && '/' !in stem && '.' !in stem
    requires e != [] && '.' !in e && '/' !in e
    ensures ParentPath(dir + "/" + stem + "." + e) == TrimSeparators(dir)
    ensures Stem(dir + "/" + stem + "." + e) == stem
  {
    var name := stem + "." + e;
    var p := dir + "/" + stem + "." + e;
    DottedWord(dir, stem, e);
    SplitDir(dir, name);
    StemOfDotted(p, stem, e);
  }

  /** "stem.e" holds no separator when stem and e hold none, and "dir/stem.e" is dir, a separator and "stem.e". */
  lemma DottedWord(dir: string, stem: string, e: string)
    requires '/' !in stem && '/' !in e
    ensures '/' !in stem + "." + e
    ensures dir + "/" + stem + "." + e == dir + "/" + (stem + "." + e)
  {
    var name := stem + "." + e;
    assert forall i :: 0 <= i < |name| ==> name[i] == '.' || name[i] in stem || name[i] in e;
  }

  /**
   * A directory, a separator and a separator-free name: the directory without
   * its trailing separators is the parent path, and the name the filename.
   */
  lemma SplitDir(dir: string, name: string)
    requires TrimSeparators(dir) != "" && '/' !in name
    ensures ParentPath(dir + "/" + name) == TrimSeparators(dir)
    ensures Filename(dir + "/" + name) == name
  {
    var head := dir + "/";
    var p := head + name;
    assert LastIndexOf(head, '/') == Some(|dir|);
    LastIndexOfAppend(head, name, '/');
    assert LastIndexOf(p, '/') == Some(|dir|);
    assert p[..|dir|] == dir;
    assert p[|dir| + 1..] == name;
  }

  /** A path whose filename is stem + "." + e, for a dot-free stem and a non-empty word e, has that stem. */
  lemma StemOfDotted(p: string, stem: string, e: string)
    requires Filename(p) == stem + "." + e && '.' !in stem
    requires e != [] && '.' !in e
    ensures Stem(p) == stem
  {
    var name := stem + "." + e;
    assert stem + "." != [] && (stem + ".")[|stem + "."| - 1] == '.';
    assert name == (stem + ".") + e;
    DottedName(stem + ".", e);
    assert Extension(p) == "." + e;
    assert name[..|name| - |"." + e|] == stem;
  }

  /**
   * The directory and stem of "dir/stem.e" joined again: "dir/stem", or just
   * "dir" for an empty stem, where dir has lost the separators it ended with.
   */
  lemma JoinStemOf(dir: string, stem: string, e: string)
    requires TrimSeparators(dir) != "" && '/' !in stem && '.' !in stem
    requires e != [] && '.' !in e && '/' !in e
    ensures var d := TrimSeparators(dir);
      Join(ParentPath(dir + "/" + stem + "." + e), Stem(dir + "/" + stem + "." + e)) == (if stem == "" then d else d + "/" + stem)
  {
    var p, d := dir + "/" + stem + "." + e, TrimSeparators(dir);
    SplitPath(dir, stem, e);
    assert ParentPath(p) == d && Stem(p) == stem;
    JoinPlain(d, stem);
  }

  /** A path with an extension does not end in a separator, so it never has the filename "." boost gives such a path. */
  lemma ExtensionNotDirectory(p: string)
    requires Extension(p) != ""
    ensures p[|p| - 1] != '/'
  {
    var r := LastIndexOf(p, '/');
    if r.Some? {
      assert p[|p| - 1] == p[r.value + 1..][|p| - r.value - 2];
    }
  }

  /** A separator-free name joined to a directory not ending in '/': the two with a '/' between, or the directory alone. */
  lemma JoinPlain(dir: string, name: string)
    requires dir != "" && dir[|dir| - 1] != '/' && '/' !in name
    ensures Join(dir, name) == (if name == "" then dir else dir + "/" + name)
  {
    if name != "" {
      assert name[0] in name;
    }
  }

  /** A non-empty separator-free name joined to a directory and followed by a separator-free tail is the filename. */
  lemma FilenameOfJoinAppend(dir: string, name: string, tail: string)
    requires name != "" && '/' !in name && '/' !in tail
    ensures Filename(Join(dir, name) + tail) == name + tail
  {
    FilenameOfJoin(dir, name);
    FilenameAppend(Join(dir, name), tail);
  }

  /** replace_extension with a plain word always leaves that word as the extension. */
  lemma ReplaceExtensionGives(p: string, e: string)
    requires e != [] && e[0] != '.' && '.' !in e && '/' !in e
    ensures ReplaceExtension(p, e) == p[..|p| - |Extension(p)|] + "." + e
    ensures Extension(ReplaceExtension(p, e)) == "." + e
  {
    var base := p[..|p| - |Extension(p)|];
    assert ReplaceExtension(p, e) == base + "." + e;
    ExtensionOfDottedSuffix(base, e);
  }

  /** An extension is a dot followed by a part without dots. */
  lemma ExtensionSingleDot(p: string)
    ensures Extension(p) != [] ==> '.' !in Extension(p)[1..]
  {
    var name := Filename(p);
    if name != "." && name != ".." {
      var r := LastIndexOf(name, '.');
      if r.Some? {
        assert name[r.value..][1..] == name[r.value + 1..];
      }
    }
  }

  /** The filename holds no separator. */
  lemma FilenameNoSeparator(p: string)
    ensures '/' !in Filename(p)
  {
  }

  /** The filename of a non-empty name joined to a directory is that name, when it has no separator. */
  lemma FilenameOfJoin(dir: string, t: string)
    requires t != "" && '/' !in t
    ensures Filename(Join(dir, t)) == t
  {
    if dir != "" {
      var u := if dir[|dir| - 1] == '/' then dir else dir + "/";
      assert Join(dir, t) == u + t;
      assert LastIndexOf(u, '/') == Some(|u| - 1);
      FilenameAppend(u, t);
    }
  }

  /** Nor does the stem. */
  lemma StemNoSeparator(p: string)
    ensures '/' !in Stem(p)
  {
    var name := Filename(p);
    FilenameNoSeparator(p);
    assert Stem(p) == name[..|name| - |Extension(p)|];
  }

  /** Nor does the extension. */
  lemma ExtensionNoSeparator(p: string)
    ensures '/' !in Extension(p)
  {
    var name := Filename(p);
    FilenameNoSeparator(p);
    var r := LastIndexOf(name, '.');
    if name != "." && name != ".." && r.Some? {
      assert forall i :: r.value <= i < |name| ==> name[r.value..][i - r.value] == name[i];
    }
  }

  /** The extension ends the path. */
  lemma ExtensionEndsPath(p: string)
    ensures p == p[..|p| - |Extension(p)|] + Extension(p)
  {
    FilenameEndsPath(p);
    ExtensionEndsFilename(p);
    SuffixOfSuffix(p, Filename(p), Extension(p));
  }

  lemma FilenameEndsPath(p: string)
    ensures Filename(p) == p[|p| - |Filename(p)|..]
  {
  }

  lemma ExtensionEndsFilename(p: string)
    ensures Extension(p) == Filename(p)[|Filename(p)| - |Extension(p)|..]
  {
  }

  lemma SuffixOfSuffix(p: string, name: string, e: string)
    requires |e| <= |name| <= |p|
    requires name == p[|p| - |name|..] && e == name[|name| - |e|..]
    ensures p == p[..|p| - |e|] + e
  {
    assert e == p[|p| - |e|..];
  }

  /** Appending a tail that is the whole extension of the result leaves the stem of the head's filename. */
  lemma StemOfAppend(base: string, t: string)
    requires '/' !in t && Extension(base + t) == t
    ensures Stem(base + t) == Filename(base)
  {
    FilenameAppend(base, t);
  }

  /** Replacing the extension keeps the stem. */
  lemma ReplaceExtensionStem(p: string, e: string)
    requires e != [] && e[0] != '.' && '.' !in e && '/' !in e
    ensures Stem(ReplaceExtension(p, e)) == Stem(p)
  {
    ReplaceExtensionGives(p, e);
    var ext := Extension(p);
    var base := p[..|p| - |ext|];
    ExtensionNoSeparator(p);
    ExtensionEndsPath(p);
    StemOfAppend(base, ext);
    assert '/' !in "." + e;
    assert ReplaceExtension(p, e) == base + ("." + e);
    StemOfAppend(base, "." + e);
  }

  /** The filename of a filename is itself, so the stem of a path's filename is the path's stem. */
  lemma StemOfFilename(p: string)
    ensures Filename(Filename(p)) == Filename(p)
    ensures Stem(Filename(p)) == Stem(p)
  {
    FilenameNoSeparator(p);
  }
}
