/**
 * U3DExporter: saves a mesh as an intermediate IDTF file next to the
 * requested U3D file, then runs the external IDTFConverter on it. The
 * converter's exit status is given to the model; the command line it is
 * run with is built here.
 */
module U3dExporter {

  import opened Wrappers
  import opened Text
  import opened Paths
  import opened Meshes
  import Files
  import Images
  import IOFormats
  import TgaImage
  import MeshExporter
  import IdtfExporter

  const PARAMS := " -debuglevel 0 -pq 1000 -tcq 1000 -gq 1000 -tq 100 -en 1 -eo 65535 "
  const CONVERT_FAILED := "Unable to convert from IDTF format to U3D format!"
  const DEFAULT_CONVERTER := "IDTFConverter"
  const U3D_DESC := "Universal 3D"

  /** The two shapes the shell line takes, chosen by _WIN32 at compile time. */
  datatype Platform = Windows | Posix

  const Q := "\""

  /** The converter invocation: quoted program name, fixed quality options, quoted input and output. */
  function Command(conv: string, idtf: string, u3d: string): string
  {
    Q + conv + Q + (PARAMS + "-input " + Q + idtf + Q + (" -output " + Q + u3d + Q))
  }

  /** What std::system is given: wrapped for cmd on Windows, output discarded elsewhere. */
  function ShellLine(p: Platform, cmd: string): string
  {
    match p
    case Windows => "cmd /Q /S /C " + Q + cmd + " > nul" + Q
    case Posix => cmd + " > /dev/null"
  }

  /** convertIDTF2U3D succeeds exactly when std::system returns 0; None stands for an exception. */
  predicate Converted(status: Option<int>)
  {
    status == Some(0)
  }

  /** The intermediate file: the output name with its extension replaced by "idtf". */
  function IdtfName(filename: string): string
  {
    ReplaceExtension(filename, "idtf")
  }

  predicate QuoteFree(s: string)
  {
    '"' !in s
  }

  /** A quote-free text before a quote is determined by the whole string. */
  lemma QuotedPrefix(a: string, x: string, b: string, y: string)
    requires QuoteFree(a) && QuoteFree(b)
    requires a + Q + x == b + Q + y
    ensures a == b && x == y
  {
    var s := a + Q + x;
    assert forall i :: 0 <= i < |a| ==> s[i] == a[i];
    assert forall i :: 0 <= i < |b| ==> s[i] == b[i];
    assert s[|a|] == '"' && s[|b|] == '"';
    assert |a| == |b|;
    assert a == s[..|a|] == b;
    assert x == s[|a| + 1..] == y;
  }

  /** Dropping an equal prefix keeps equality. */
  lemma DropPrefix(p: string, x: string, y: string)
    requires p + x == p + y
    ensures x == y
  {
    assert x == (p + x)[|p|..];
  }

  /** Dropping an equal suffix keeps equality. */
  lemma DropSuffix(x: string, y: string, q: string)
    requires x + q == y + q
    ensures x == y
  {
    assert x == (x + q)[..|x|];
  }

  /** After an equal prefix, a quote-free text closed by a quote is determined by the whole. */
  lemma StripQuoted(p: string, a: string, x: string, b: string, y: string)
    requires QuoteFree(a) && QuoteFree(b)
    requires p + a + Q + x == p + b + Q + y
    ensures a == b && x == y
  {
    assert p + a + Q + x == p + (a + Q + x);
    assert p + b + Q + y == p + (b + Q + y);
    DropPrefix(p, a + Q + x, b + Q + y);
    QuotedPrefix(a, x, b, y);
  }

  /**
   * The converter sees exactly the names it was given: for names without
   * quotes the command line determines the program, input and output.
   */
  lemma CommandInjective(c: string, i: string, u: string, c': string, i': string, u': string)
    requires QuoteFree(c) && QuoteFree(i) && QuoteFree(u)
    requires QuoteFree(c') && QuoteFree(i') && QuoteFree(u')
    requires Command(c, i, u) == Command(c', i', u')
    ensures c == c' && i == i' && u == u'
  {
    var m := PARAMS + "-input " + Q;
    var t := " -output " + Q;
    var r, r' := t + u + Q, t + u' + Q;
    StripQuoted(Q, c, m + i + Q + r, c', m + i' + Q + r');
    StripQuoted(m, i, r, i', r');
    DropSuffix(t + u, t + u', Q);
    DropPrefix(t, u, u');
  }

  /** On either platform the shell line determines the command it wraps. */
  lemma ShellLineInjective(p: Platform, cmd: string, cmd': string)
    requires ShellLine(p, cmd) == ShellLine(p, cmd')
    ensures cmd == cmd'
  {
    match p
    case Windows =>
      var head := "cmd /Q /S /C " + Q;
      var tail := " > nul" + Q;
      assert ShellLine(p, cmd) == head + (cmd + tail);
      assert ShellLine(p, cmd') == head + (cmd' + tail);
      DropPrefix(head, cmd + tail, cmd' + tail);
      DropSuffix(cmd, cmd', tail);
    case Posix =>
      DropSuffix(cmd, cmd', " > /dev/null");
  }

  /** The intermediate name is never empty and the IDTF exporter's registry recognises it. */
  lemma IdtfNameSupported(filename: string)
    ensures IdtfName(filename) != ""
    ensures IOFormats.GetExtension(IdtfName(filename)) == "idtf"
  {
    var e := "idtf";
    assert IOFormats.LowerWord(e);
    IOFormats.ReplacedExtension(filename, e);
  }

  /** The static U3DExporter::IDTFConverter, shared by every exporter. */
  class Converter {
    var name: string

    constructor (initial: string)
      ensures name == initial
    {
      name := initial;
    }
  }

  /** isAvailable: the converter exists as named, or search_path finds it (given as onPath). */
  predicate Available(fs: Files.FileSystem, conv: Converter, onPath: bool)
    reads fs, conv
  {
    fs.IsRegularFile(conv.name) || onPath
  }

  class Exporter {
    const formats: IOFormats.Formats
    const delOnDestroy: bool
    const media9: bool
    const ems: IdtfExporter.Colour
    const conv: Converter

    ghost predicate Valid()
      reads this, formats
    {
      formats.Valid()
    }

    /**
     * The constructor: an empty converter name is reset to "IDTFConverter";
     * "u3d" is registered only when the converter is available.
     */
    constructor (delFiles: bool, m9: bool, emissive: IdtfExporter.Colour, c: Converter, fs: Files.FileSystem, onPath: bool)
      modifies c
      ensures Valid() && fresh(formats) && conv == c
      ensures delOnDestroy == delFiles && media9 == m9 && ems == emissive
      ensures c.name == (if old(c.name) == "" then DEFAULT_CONVERTER else old(c.name))
      ensures Available(fs, c, onPath) ==> formats.exts == ["u3d"] && formats.descs == map["u3d" := U3D_DESC]
      ensures !Available(fs, c, onPath) ==> formats.exts == [] && formats.descs == map[]
      ensures formats.err == ""
    {
      delOnDestroy := delFiles;
      media9 := m9;
      ems := emissive;
      conv := c;
      if c.name == "" {
        c.name := DEFAULT_CONVERTER;
      }
      var f := new IOFormats.Formats();
      if fs.IsRegularFile(c.name) || onPath {
        assert Trim(U3D_DESC) == U3D_DESC;
        var _ := IOFormats.RegisterWord(f, "u3d", U3D_DESC);
      }
      formats := f;
    }

    /** MeshExporter::save on a U3DExporter: the filename guards, then doSave. */
    method Save(inMesh: Mesh, filename: string, merged: Mesh, fs: Files.FileSystem, dev: TgaImage.Device, opens: bool,
                platform: Platform, status: Option<int>)
      returns (ok: bool, command: Option<string>, tga: seq<Images.byte>, text: seq<Line>)
      requires Valid() && IdtfExporter.TextureFits(IdtfExporter.Exported(inMesh, merged))
      modifies formats, fs
      ensures Valid() && formats.exts == old(formats.exts) && formats.descs == old(formats.descs)
      ensures filename == "" ==> formats.err == MeshExporter.EMPTY_FILENAME
      ensures filename != "" && !formats.IsSupported(filename) ==> formats.err == MeshExporter.Unsupported(filename)
      ensures !(filename != "" && formats.IsSupported(filename)) ==>
        !ok && command.None? && tga == [] && text == [] && fs.regular == old(fs.regular)
      ensures filename != "" && formats.IsSupported(filename) ==>
        var s := IdtfSaved(inMesh, merged, IdtfName(filename), media9, ems, dev, opens);
        && command == (if s.ok then Some(ShellLine(platform, Command(conv.name, IdtfName(filename), filename))) else None)
        && ok == (s.ok && Converted(status))
        && formats.err == (if !s.ok then (if s.err.Some? then s.err.value else "")
                           else if !Converted(status) then CONVERT_FAILED else "")
        && tga == s.tga && text == s.text
        && fs.regular == IdtfExporter.AfterReset(delOnDestroy, old(fs.regular) + s.created, {s.idtffile} + IdtfExporter.Names(s.tgafiles))
    {
      var m := if NumMats(inMesh) <= 1 then inMesh else merged;
      var idtffile := ReplaceExtension(filename, "idtf");
      ok, command, tga, text := SaveText(inMesh, filename, merged, fs, dev, opens, platform, status,
                                         IdtfExporter.WriteFile(m, media9, ems, IdtfExporter.TgaFor(m, idtffile)));
    }

    /** Save, given the text o that the inner exporter's _writeFile produces. */
    method SaveText(inMesh: Mesh, filename: string, merged: Mesh, fs: Files.FileSystem, dev: TgaImage.Device, opens: bool,
                    platform: Platform, status: Option<int>, o: Out)
      returns (ok: bool, command: Option<string>, tga: seq<Images.byte>, text: seq<Line>)
      requires Valid() && IdtfExporter.TextureFits(IdtfExporter.Exported(inMesh, merged))
      modifies formats, fs
      ensures Valid() && formats.exts == old(formats.exts) && formats.descs == old(formats.descs)
      ensures filename == "" ==> formats.err == MeshExporter.EMPTY_FILENAME
      ensures filename != "" && !formats.IsSupported(filename) ==> formats.err == MeshExporter.Unsupported(filename)
      ensures !(filename != "" && formats.IsSupported(filename)) ==>
        !ok && command.None? && tga == [] && text == [] && fs.regular == old(fs.regular)
      ensures filename != "" && formats.IsSupported(filename) ==>
        var s := IdtfExporter.SaveSpec(inMesh, merged, IdtfName(filename), dev, opens, o);
        && command == (if s.ok then Some(ShellLine(platform, Command(conv.name, IdtfName(filename), filename))) else None)
        && ok == (s.ok && Converted(status))
        && formats.err == (if !s.ok then (if s.err.Some? then s.err.value else "")
                           else if !Converted(status) then CONVERT_FAILED else "")
        && tga == s.tga && text == s.text
        && fs.regular == IdtfExporter.AfterReset(delOnDestroy, old(fs.regular) + s.created, {s.idtffile} + IdtfExporter.Names(s.tgafiles))
    {
      var proceed := MeshExporter.CheckSave(formats, filename);
      if !proceed {
        return false, None, [], [];
      }
      ok, command, tga, text := DoSaveText(inMesh, filename, merged, fs, dev, opens, platform, status, o);
    }

    /**
     * doSave: save the mesh with a fresh IDTFExporter under the intermediate
     * name; only if that succeeds run the converter (whose exit status is
     * given). The IDTF exporter's error wins over the conversion error, and
     * the inner exporter's destructor then deletes its files when deletion
     * is on, whatever the outcome. `command` is the line handed to
     * std::system, None when the converter is not run.
     */
    method DoSave(inMesh: Mesh, filename: string, merged: Mesh, fs: Files.FileSystem, dev: TgaImage.Device, opens: bool,
                  platform: Platform, status: Option<int>)
      returns (ok: bool, command: Option<string>, tga: seq<Images.byte>, text: seq<Line>)
      requires Valid() && IdtfExporter.TextureFits(IdtfExporter.Exported(inMesh, merged))
      modifies formats, fs
      ensures Valid() && formats.exts == old(formats.exts) && formats.descs == old(formats.descs)
      ensures var s := IdtfSaved(inMesh, merged, IdtfName(filename), media9, ems, dev, opens);
        && command == (if s.ok then Some(ShellLine(platform, Command(conv.name, IdtfName(filename), filename))) else None)
        && ok == (s.ok && Converted(status))
        && formats.err == (if !s.ok then (if s.err.Some? then s.err.value else "")
                           else if !Converted(status) then CONVERT_FAILED else old(formats.err))
        && tga == s.tga && text == s.text
        && fs.regular == IdtfExporter.AfterReset(delOnDestroy, old(fs.regular) + s.created, {s.idtffile} + IdtfExporter.Names(s.tgafiles))
    {
      var m := if NumMats(inMesh) <= 1 then inMesh else merged;
      var idtffile := ReplaceExtension(filename, "idtf");
      ok, command, tga, text := DoSaveText(inMesh, filename, merged, fs, dev, opens, platform, status,
                                           IdtfExporter.WriteFile(m, media9, ems, IdtfExporter.TgaFor(m, idtffile)));
    }

    /** doSave, given the text o that the inner exporter's _writeFile produces. */
    method DoSaveText(inMesh: Mesh, filename: string, merged: Mesh, fs: Files.FileSystem, dev: TgaImage.Device, opens: bool,
                      platform: Platform, status: Option<int>, o: Out)
      returns (ok: bool, command: Option<string>, tga: seq<Images.byte>, text: seq<Line>)
      requires Valid() && IdtfExporter.TextureFits(IdtfExporter.Exported(inMesh, merged))
      modifies formats, fs
      ensures Valid() && formats.exts == old(formats.exts) && formats.descs == old(formats.descs)
      ensures var s := IdtfExporter.SaveSpec(inMesh, merged, IdtfName(filename), dev, opens, o);
        && command == (if s.ok then Some(ShellLine(platform, Command(conv.name, IdtfName(filename), filename))) else None)
        && ok == (s.ok && Converted(status))
        && formats.err == (if !s.ok then (if s.err.Some? then s.err.value else "")
                           else if !Converted(status) then CONVERT_FAILED else old(formats.err))
        && tga == s.tga && text == s.text
        && fs.regular == IdtfExporter.AfterReset(delOnDestroy, old(fs.regular) + s.created, {s.idtffile} + IdtfExporter.Names(s.tgafiles))
    {
      var inner, saved;
      inner, saved, tga, text := SaveIntermediate(inMesh, filename, merged, fs, dev, opens, o);
      ok, command := Convert(saved, inner.formats.err, ReplaceExtension(filename, "idtf"), filename, platform, status);
      inner.Reset(fs);
    }

    /** The first stage of doSave: a fresh IDTFExporter saves the mesh under the intermediate name. */
    method SaveIntermediate(inMesh: Mesh, filename: string, merged: Mesh, fs: Files.FileSystem, dev: TgaImage.Device, opens: bool,
                            o: Out)
      returns (inner: IdtfExporter.Exporter, saved: bool, tga: seq<Images.byte>, text: seq<Line>)
      requires IdtfExporter.TextureFits(IdtfExporter.Exported(inMesh, merged))
      modifies fs
      ensures fresh(inner) && fresh(inner.formats) && inner.delOnDtor == delOnDestroy
      ensures InnerSaved(IdtfExporter.SaveSpec(inMesh, merged, IdtfName(filename), dev, opens, o),
                         saved, tga, text, inner.formats.err, inner.Recorded(), old(fs.regular), fs.regular)
    {
      inner := new IdtfExporter.Exporter(delOnDestroy, media9, ems);
      assert IdtfExporter.Names([]) == {};
      saved, tga, text := SaveWithInner(inner, inMesh, filename, merged, fs, dev, opens, o);
    }

    /** idtfExporter.save(mesh, idtffile) on an exporter with nothing recorded and only "idtf" registered. */
    static method SaveWithInner(inner: IdtfExporter.Exporter, inMesh: Mesh, filename: string, merged: Mesh, fs: Files.FileSystem,
                                dev: TgaImage.Device, opens: bool, o: Out)
      returns (saved: bool, tga: seq<Images.byte>, text: seq<Line>)
      requires inner.Valid() && inner.formats.exts == ["idtf"] && inner.Recorded() == {""}
      requires IdtfExporter.TextureFits(IdtfExporter.Exported(inMesh, merged))
      modifies inner, inner.formats, fs
      ensures InnerSaved(IdtfExporter.SaveSpec(inMesh, merged, IdtfName(filename), dev, opens, o),
                         saved, tga, text, inner.formats.err, inner.Recorded(), old(fs.regular), fs.regular)
    {
      ghost var r0 := fs.regular;
      assert IdtfExporter.AfterReset(inner.delOnDtor, r0, inner.Recorded()) == r0 by {
        assert inner.Recorded() - {""} == {};
      }
      var idtffile := ReplaceExtension(filename, "idtf");
      IdtfNameSupported(filename);
      saved, tga, text := inner.SaveText(inMesh, idtffile, merged, fs, dev, opens, o);
      assert InnerSaved(IdtfExporter.SaveSpec(inMesh, merged, idtffile, dev, opens, o),
                        saved, tga, text, inner.formats.err, inner.Recorded(), r0, fs.regular);
    }

    /** The part of doSave after the IDTF save: run the converter only if that save succeeded. */
    method Convert(saved: bool, idtfErr: string, idtffile: string, filename: string, platform: Platform, status: Option<int>)
      returns (ok: bool, command: Option<string>)
      requires Valid()
      modifies formats
      ensures Valid() && formats.exts == old(formats.exts) && formats.descs == old(formats.descs)
      ensures command == (if saved then Some(ShellLine(platform, Command(conv.name, idtffile, filename))) else None)
      ensures ok == (saved && Converted(status))
      ensures formats.err == (if !saved then idtfErr else if !Converted(status) then CONVERT_FAILED else old(formats.err))
    {
      command := None;
      if !saved {
        formats.SetErr(idtfErr);
        ok := false;
      } else {
        command := Some(ShellLine(platform, Command(conv.name, idtffile, filename)));
        ok := Converted(status);
        if !ok {
          formats.SetErr(CONVERT_FAILED);
        }
      }
    }
  }

  /**
   * The inner exporter's save went as s says: its outcome, TGA bytes and text,
   * its error message, the files it recorded, and the files it created.
   */
  ghost predicate InnerSaved(s: IdtfExporter.Saved, saved: bool, tga: seq<Images.byte>, text: seq<Line>, err: string,
                             recorded: set<string>, r0: set<string>, regular: set<string>)
  {
    && saved == s.ok && tga == s.tga && text == s.text
    && err == (if s.err.Some? then s.err.value else "")
    && recorded == {s.idtffile} + IdtfExporter.Names(s.tgafiles)
    && regular == r0 + s.created
  }

  /** What the inner IDTFExporter's save produces for the intermediate file. */
  function IdtfSaved(inMesh: Mesh, merged: Mesh, idtf: string, media9: bool, ems: IdtfExporter.Colour,
                     dev: TgaImage.Device, opens: bool): IdtfExporter.Saved
    requires IdtfExporter.TextureFits(IdtfExporter.Exported(inMesh, merged))
  {
    var m := IdtfExporter.Exported(inMesh, merged);
    IdtfExporter.SaveSpec(inMesh, merged, idtf, dev, opens, IdtfExporter.WriteFile(m, media9, ems, IdtfExporter.TgaFor(m, idtf)))
  }
}
