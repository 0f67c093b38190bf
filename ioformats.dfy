/**
 * IOFormats: the registry of filename extensions (lower case, without dots)
 * and their descriptions that every importer and exporter carries, with the
 * last error message. MeshExporter and MeshImporter, and through them every
 * concrete exporter and importer, own one of these.
 */
module IOFormats {

  import opened Text
  import Paths

  /**
   * The extension of a filename as the registry compares it: the name is
   * trimmed, its final extension taken without the dot and lower-cased; ""
   * when there is none or the name ends with a dot.
   */
  function GetExtension(fname: string): (r: string)
    ensures ToLower(r) == r
  {
    var ext := Paths.Extension(Trim(fname));
    if ext == "" || ext == "." then "" else
      ToLowerIdempotent(ext[1..]);
      ToLower(ext[1..])
  }

  /** The extension compared has no dot in it. */
  lemma GetExtensionNoDot(fname: string)
    ensures '.' !in GetExtension(fname)
  {
    var ext := Paths.Extension(Trim(fname));
    Paths.ExtensionSingleDot(Trim(fname));
    if ext != "" && ext != "." {
      var r := ToLower(ext[1..]);
      forall i | 0 <= i < |r| ensures r[i] != '.' {
        assert ext[1..][i] != '.';
      }
    }
  }

  lemma TrimDotted(u: string, e: string)
    requires e != [] && !IsSpace(e[|e| - 1])
    ensures Trim(u + "." + e) == TrimLeft(u) + "." + e
  {
    var s := u + "." + e;
    var dotted := "." + e;
    assert s == u + dotted;
    assert s[|s| - 1] == e[|e| - 1];
    assert TrimRight(s) == s;
    assert dotted[0] == '.';
    TrimLeftAppend(u, dotted);
    var w := TrimLeft(u);
    assert w + dotted == w + "." + e by {
      AppendAssoc(w, ".", e);
    }
  }

  lemma AppendAssoc(a: string, b: string, c: string)
    ensures a + (b + c) == a + b + c
  {
  }

  /** A name ending in "." + e, for a plain word e, has extension e lower-cased. */
  lemma GetExtensionOfDotted(u: string, e: string)
    requires e != [] && '.' !in e && '/' !in e && !IsSpace(e[|e| - 1])
    ensures GetExtension(u + "." + e) == ToLower(e)
  {
    TrimDotted(u, e);
    Paths.ExtensionOfDottedSuffix(TrimLeft(u), e);
  }

  function StripLeadingDots(s: string): (r: string)
    ensures r != [] ==> r[0] != '.'
  {
    if s != [] && s[0] == '.' then StripLeadingDots(s[1..]) else s
  }

  function StripTrailingDots(s: string): (r: string)
    ensures r != [] ==> r[|r| - 1] != '.'
  {
    if s != [] && s[|s| - 1] == '.' then StripTrailingDots(s[..|s| - 1]) else s
  }

  /** The key addSupported registers: lower-cased, trimmed, then stripped of leading and trailing dots. */
  function NormaliseExt(ext: string): (r: string)
  {
    StripTrailingDots(StripLeadingDots(Trim(ToLower(ext))))
  }

  /** The string has a character other than '.'. */
  predicate HasNonDot(s: string)
  {
    StripLeadingDots(s) != []
  }

  /** Stripping trailing dots never removes a first character that is not a dot. */
  lemma {:induction false} StripTrailingKeepsFirst(s: string)
    requires s != [] && s[0] != '.'
    ensures StripTrailingDots(s) != [] && StripTrailingDots(s)[0] == s[0]
    decreases |s|
  {
    if s[|s| - 1] == '.' {
      assert |s| > 1;
      assert s[..|s| - 1][0] == s[0];
      StripTrailingKeepsFirst(s[..|s| - 1]);
    }
  }

  /** When the trimmed, lower-cased input has a non-dot character, the key is non-empty and has no dot at either end. */
  lemma NormaliseExtShape(ext: string)
    requires HasNonDot(Trim(ToLower(ext)))
    ensures NormaliseExt(ext) != []
    ensures NormaliseExt(ext)[0] != '.' && NormaliseExt(ext)[|NormaliseExt(ext)| - 1] != '.'
  {
    StripTrailingKeepsFirst(StripLeadingDots(Trim(ToLower(ext))));
  }

  lemma {:induction false} StripLeadingSuffix(s: string)
    ensures |StripLeadingDots(s)| <= |s| && StripLeadingDots(s) == s[|s| - |StripLeadingDots(s)|..]
  {
    if s != [] && s[0] == '.' {
      StripLeadingSuffix(s[1..]);
    }
  }

  lemma {:induction false} StripTrailingPrefix(s: string)
    ensures |StripTrailingDots(s)| <= |s| && StripTrailingDots(s) == s[..|StripTrailingDots(s)|]
  {
    if s != [] && s[|s| - 1] == '.' {
      StripTrailingPrefix(s[..|s| - 1]);
    }
  }

  /** A lower-case string has lower-case slices. */
  lemma LowerSlice(s: string, i: nat, j: nat)
    requires ToLower(s) == s && i <= j <= |s|
    ensures ToLower(s[i..j]) == s[i..j]
  {
    var t := s[i..j];
    forall k | 0 <= k < |t| ensures Lower(t[k]) == t[k] {
      assert t[k] == s[i + k];
      assert Lower(s[i + k]) == ToLower(s)[i + k];
    }
  }

  /** The key is in lower case. */
  lemma NormaliseExtLower(ext: string)
    ensures ToLower(NormaliseExt(ext)) == NormaliseExt(ext)
  {
    var l := ToLower(ext);
    ToLowerIdempotent(ext);
    LowerTrim(l);
    LowerStripLeading(Trim(l));
    LowerStripTrailing(StripLeadingDots(Trim(l)));
  }

  lemma LowerTrim(s: string)
    requires ToLower(s) == s
    ensures ToLower(Trim(s)) == Trim(s)
  {
    var lo, hi := TrimSlice(s);
    LowerSlice(s, lo, hi);
  }

  lemma LowerStripLeading(s: string)
    requires ToLower(s) == s
    ensures ToLower(StripLeadingDots(s)) == StripLeadingDots(s)
  {
    StripLeadingSuffix(s);
    LowerSlice(s, |s| - |StripLeadingDots(s)|, |s|);
    assert s[|s| - |StripLeadingDots(s)|..|s|] == StripLeadingDots(s);
  }

  lemma LowerStripTrailing(s: string)
    requires ToLower(s) == s
    ensures ToLower(StripTrailingDots(s)) == StripTrailingDots(s)
  {
    StripTrailingPrefix(s);
    LowerSlice(s, 0, |StripTrailingDots(s)|);
    assert s[0..|StripTrailingDots(s)|] == StripTrailingDots(s);
  }

  /** A plain word: non-empty, without dots, separators or whitespace. */
  predicate PlainWord(e: string)
  {
    e != [] && forall i :: 0 <= i < |e| ==> e[i] != '.' && e[i] != '/' && !IsSpace(e[i])
  }

  /** A plain word is registered under its lower-case form, which is also what a filename ending in it looks up. */
  lemma PlainWordKey(e: string)
    requires PlainWord(e)
    ensures HasNonDot(Trim(ToLower(e)))
    ensures NormaliseExt(e) == ToLower(e)
    ensures forall u :: GetExtension(u + "." + e) == NormaliseExt(e)
  {
    var l := ToLower(e);
    assert l[0] == Lower(e[0]) && l[0] != '.';
    assert TrimRight(l) == l;
    assert TrimLeft(l) == l;
    assert HasNonDot(Trim(l));
    assert StripLeadingDots(l) == l;
    assert StripTrailingDots(l) == l;
    forall u ensures GetExtension(u + "." + e) == NormaliseExt(e) {
      assert '.' !in e && '/' !in e by {
        assert forall i :: 0 <= i < |e| ==> e[i] != '.' && e[i] != '/';
      }
      GetExtensionOfDotted(u, e);
    }
  }

  /** Replacing a filename's extension with a lower-case word makes that word the extension the registry sees. */
  lemma ReplacedExtension(p: string, e: string)
    requires LowerWord(e)
    ensures Paths.ReplaceExtension(p, e) != ""
    ensures GetExtension(Paths.ReplaceExtension(p, e)) == e
  {
    assert e[0] != '.' && '.' !in e && '/' !in e by {
      assert forall i :: 0 <= i < |e| ==> e[i] != '.' && e[i] != '/';
    }
    Paths.ReplaceExtensionGives(p, e);
    PlainWordKey(e);
    LowerWordLower(e);
    assert GetExtension(p[..|p| - |Paths.Extension(p)|] + "." + e) == NormaliseExt(e);
  }

  /** A lower-case word is its own lower-case form. */
  lemma {:induction false} LowerWordLower(e: string)
    requires forall i :: 0 <= i < |e| ==> !('A' <= e[i] <= 'Z')
    ensures ToLower(e) == e
  {
    if e != [] {
      LowerWordLower(e[1..]);
    }
  }

  /** A plain word without upper-case letters. */
  predicate LowerWord(e: string)
  {
    PlainWord(e) && forall i :: 0 <= i < |e| ==> !('A' <= e[i] <= 'Z')
  }

  /**
   * addSupported(e, desc) as the exporters' constructors call it: a
   * lower-case word with a trimmed description is registered under the word
   * itself.
   */
  method RegisterWord(f: Formats, e: string, desc: string) returns (ok: bool)
    requires f.Valid() && LowerWord(e) && Trim(desc) == desc
    modifies f
    ensures f.Valid() && f.err == old(f.err)
    ensures ok <==> e !in old(f.descs)
    ensures ok ==> f.exts == old(f.exts) + [e] && f.descs == old(f.descs)[e := desc]
    ensures !ok ==> f.exts == old(f.exts) && f.descs == old(f.descs)
  {
    PlainWordKey(e);
    assert ToLower(e) == e;
    ok := f.AddSupported(e, desc);
  }

  /** The name enableFormat asks isSupported about is this stem, '.' and the extension. */
  const TEST_STEM := "tonythetiger"

  /**
   * enableFormat of the Assimp-backed importer and exporter: an offered
   * extension becomes supported (under its lower-case form, with its trimmed
   * description) unless it already is; an extension not offered changes
   * nothing.
   */
  method EnableOffered(f: Formats, available: map<string, string>, ext: string) returns (ok: bool)
    requires f.Valid() && forall e :: e in available ==> PlainWord(e)
    modifies f
    ensures f.Valid() && f.err == old(f.err)
    ensures ok <==> ext in available
    ensures ok ==> ToLower(ext) in f.descs
    ensures !ok || ToLower(ext) in old(f.descs) ==> f.exts == old(f.exts) && f.descs == old(f.descs)
    ensures ok && ToLower(ext) !in old(f.descs) ==>
      && f.exts == old(f.exts) + [ToLower(ext)]
      && f.descs == old(f.descs)[ToLower(ext) := Trim(available[ext])]
  {
    if ext !in available {
      return false;
    }
    PlainWordKey(ext);
    var testfname := TEST_STEM + "." + ext;
    assert GetExtension(testfname) == ToLower(ext);
    if f.IsSupported(testfname) {
      return true;
    }
    ok := f.AddSupported(ext, available[ext]);
  }

  /**
   * getDescription ignores case: an extension and its lower-case form, or any
   * two spellings that lower-case alike, have the same description.
   */
  lemma GetDescriptionIgnoresCase(f: Formats, a: string, b: string)
    requires f.Valid() && ToLower(a) in f.descs && ToLower(a) == ToLower(b)
    ensures ToLower(ToLower(a)) in f.descs && f.GetDescription(ToLower(a)) == f.GetDescription(a)
    ensures f.GetDescription(b) == f.GetDescription(a)
  {
    ToLowerIdempotent(a);
  }

  class Formats {
    var err: string
    var exts: seq<string>
    var descs: map<string, string>

    /** Keys are exactly the listed extensions, listed once, non-empty, with trimmed descriptions. */
    ghost predicate Valid()
      reads this
    {
      && (forall e :: e in exts <==> e in descs)
      && (forall i, j :: 0 <= i < j < |exts| ==> exts[i] != exts[j])
      && (forall e :: e in descs ==> e != "" && Trim(descs[e]) == descs[e])
    }

    constructor ()
      ensures Valid()
      ensures err == "" && exts == [] && descs == map[]
    {
      err := "";
      exts := [];
      descs := map[];
    }

    /** isSupported(fname): the filename's extension is registered; never for an empty name or a missing extension. */
    function IsSupported(fname: string): (r: bool)
      reads this
      requires Valid()
      ensures r <==> GetExtension(fname) in exts
      ensures fname == "" ==> !r
    {
      if fname == "" then
        assert Trim(fname) == "";
        false
      else
        var ext := GetExtension(fname);
        if ext == "" then false else ext in descs
    }

    /** isSupported(): true iff some extension has been registered. */
    function HasAny(): (r: bool)
      reads this
      requires Valid()
      ensures r <==> exists e :: e in descs
    {
      if |exts| > 0 then
        assert exts[0] in descs;
        true
      else
        false
    }

    /** getDescription: case-insensitive lookup of a registered extension. */
    function GetDescription(ext: string): (r: string)
      reads this
      requires Valid() && ToLower(ext) in descs
      ensures Trim(r) == r
    {
      descs[ToLower(ext)]
    }

    method SetErr(msg: string)
      modifies this
      ensures err == msg && exts == old(exts) && descs == old(descs)
    {
      err := msg;
    }

    /**
     * addSupported: registers the normalised extension with the trimmed
     * description, unless it is already registered. The trimmed, lower-cased
     * extension must have a non-dot character: the dot-stripping loops index
     * past the end of the string otherwise, so the source's own empty check
     * after them is never reached.
     */
    method AddSupported(ext: string, desc: string) returns (ok: bool)
      requires Valid()
      requires HasNonDot(Trim(ToLower(ext)))
      modifies this
      ensures Valid()
      ensures err == old(err)
      ensures ok <==> NormaliseExt(ext) !in old(descs)
      ensures ok ==> exts == old(exts) + [NormaliseExt(ext)] && descs == old(descs)[NormaliseExt(ext) := Trim(desc)]
      ensures !ok ==> exts == old(exts) && descs == old(descs)
    {
      var lext := ToLower(ext);
      lext := Trim(lext);
      ghost var trimmed := lext;
      while lext[0] == '.'
        invariant StripLeadingDots(lext) == StripLeadingDots(trimmed) != []
        decreases |lext|
      {
        lext := lext[1..];
      }
      ghost var lead := lext;
      StripTrailingKeepsFirst(lead);
      while lext[|lext| - 1] == '.'
        invariant lext != [] && lext[0] == lead[0]
        invariant StripTrailingDots(lext) == StripTrailingDots(lead)
        decreases |lext|
      {
        lext := lext[..|lext| - 1];
      }
      assert lext == NormaliseExt(ext);
      NormaliseExtShape(ext);
      if lext in descs {
        return false;
      }
      TrimIdempotent(desc);
      exts := exts + [lext];
      descs := descs[lext := Trim(desc)];
      ok := true;
    }
  }
}
