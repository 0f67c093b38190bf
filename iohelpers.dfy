/**
 * The free functions of r3dio: loadMesh, saveMesh's choice of exporter by
 * the filename's extension, and the saveAsX helpers that force an extension
 * before saving with one exporter.
 */
module IOHelpers {

  import opened Wrappers
  import opened Text
  import opened Meshes
  import Paths
  import Images
  import IOFormats
  import Files
  import AssetImporter
  import AssetExporter
  import PlyExporter
  import ObjExporter

  // ---------------------------------------------------------------------------
  // loadMesh

  /** The formats loadMesh enables on its importer, in order. */
  const LOAD_FORMATS: seq<string> := ["3ds", "3mf", "dae", "obj", "off", "ply", "stl", "x3d"]

  /** A file loadMesh reads: a non-empty name whose extension is one of the eight and is offered by Assimp. */
  predicate Loadable(fname: string, imps: seq<AssetImporter.ImporterInfo>)
  {
    fname != "" && IOFormats.GetExtension(fname) in LOAD_FORMATS && IOFormats.GetExtension(fname) in AssetImporter.Available(imps)
  }

  /** Enabling one more of the eight formats: the registered extensions are those enabled so far that Assimp offers. */
  method EnableLoadFormat(aimp: AssetImporter.Importer, k: nat)
    requires k < |LOAD_FORMATS| && aimp.Valid()
    requires forall e :: e in aimp.formats.exts <==> e in LOAD_FORMATS[..k] && e in aimp.available
    modifies aimp.formats
    ensures aimp.Valid() && aimp.formats.err == old(aimp.formats.err)
    ensures forall e :: e in aimp.formats.exts <==> e in LOAD_FORMATS[..k + 1] && e in aimp.available
  {
    var e := LOAD_FORMATS[k];
    assert LOAD_FORMATS[..k + 1] == LOAD_FORMATS[..k] + [e];
    IOFormats.LowerWordLower(e);
    var _ := aimp.EnableFormat(e);
  }

  /**
   * loadMesh: nothing for an empty name; otherwise an importer that loads
   * textures and refuses non-triangles, with the eight formats enabled,
   * loads the file.
   */
  method LoadMesh(fname: string, imps: seq<AssetImporter.ImporterInfo>, scene: Option<AssetImporter.AiSceneIn>,
                  oracle: seq<AssetImporter.MeshOracle>, images: map<string, Images.Image>)
    returns (model: Option<seq<AssetImporter.Call>>)
    requires forall e :: e in AssetImporter.Available(imps) ==> IOFormats.PlainWord(e)
    requires scene.Some? ==> AssetImporter.SceneFits(scene.value, oracle)
    ensures fname == "" ==> model.None?
    ensures model.Some? ==>
      && Loadable(fname, imps) && scene.Some?
      && model.value == AssetImporter.SceneCalls(scene.value, oracle,
           AssetImporter.TextureSource(true, Paths.ParentPath(fname), images), |scene.value.meshes|)
    ensures Loadable(fname, imps) && scene.Some? ==>
      (model.None? <==> |scene.value.meshes| == 0 || AssetImporter.FailsBy(scene.value, true, |scene.value.meshes|))
  {
    if fname == "" {
      return None;
    }
    var aimp := new AssetImporter.Importer(true, true, imps);
    EnableLoadFormat(aimp, 0);
    EnableLoadFormat(aimp, 1);
    EnableLoadFormat(aimp, 2);
    EnableLoadFormat(aimp, 3);
    EnableLoadFormat(aimp, 4);
    EnableLoadFormat(aimp, 5);
    EnableLoadFormat(aimp, 6);
    EnableLoadFormat(aimp, 7);
    assert LOAD_FORMATS[..8] == LOAD_FORMATS;
    model := aimp.Load(fname, scene, oracle, images);
  }

  // ---------------------------------------------------------------------------
  // saveMesh

  /** The five saveAsX helpers that saveMesh names. */
  datatype Helper = AsPly | AsObj | AsU3d | AsStl | As3ds

  /** The extension each helper forces on the file it saves. */
  function HelperExt(h: Helper): (r: string)
    ensures IOFormats.LowerWord(r)
  {
    match h
    case AsPly => "ply"
    case AsObj => "obj"
    case AsU3d => "u3d"
    case AsStl => "stl"
    case As3ds => "3ds"
  }

  /** Where saveMesh sends a file: nowhere, to a helper, or to an AssetExporter asked to enable ext. */
  datatype Route = NoExtension | SaveAs(helper: Helper) | ByAssimp(ext: string)

  /** saveMesh's chain of comparisons: a key naming a helper goes to it, any other key to an AssetExporter. */
  function Dispatch(key: string): (r: Route)
    ensures !r.NoExtension?
    ensures r.SaveAs? ==> HelperExt(r.helper) == key
    ensures r.ByAssimp? ==> r.ext == key && forall h :: HelperExt(h) != key
  {
    if key == "ply" then SaveAs(AsPly)
    else if key == "obj" then SaveAs(AsObj)
    else if key == "u3d" then SaveAs(AsU3d)
    else if key == "stl" then SaveAs(AsStl)
    else if key == "3ds" then SaveAs(As3ds)
    else ByAssimp(key)
  }

  /**
   * saveMesh as written: the key is the lower-case extension as
   * path::extension returns it, which keeps the leading dot.
   */
  function RouteAsWritten(fn: string): Route
  {
    if !Paths.HasExtension(fn) then NoExtension else Dispatch(ToLower(Paths.Extension(fn)))
  }

  /** Lower-casing keeps a leading dot and lower-cases the rest. */
  lemma ToLowerDotted(t: string)
    ensures ToLower("." + t) == "." + ToLower(t)
  {
    var l := ToLower("." + t);
    assert l[0] == '.';
    assert l[1..] == ToLower(t);
  }

  /**
   * As written, no helper is ever chosen: every extension starts with a dot,
   * and so does the key that goes to the AssetExporter.
   */
  lemma AsWrittenNeverNamed(fn: string)
    ensures !RouteAsWritten(fn).SaveAs?
    ensures RouteAsWritten(fn).ByAssimp? ==> RouteAsWritten(fn).ext == ToLower(Paths.Extension(fn)) && RouteAsWritten(fn).ext[0] == '.'
  {
    var ext := Paths.Extension(fn);
    if ext != "" {
      ToLowerDotted(ext[1..]);
      assert ext == "." + ext[1..];
      forall h: Helper ensures HelperExt(h) != ToLower(ext) {
        assert HelperExt(h)[0] != '.';
      }
    }
  }

  /** The input that shows it: a file such as "mesh.ply" is not sent to saveAsPLY but to an AssetExporter, as ".ply". */
  lemma AsWrittenPlyExample(u: string)
    ensures RouteAsWritten(u + ".ply") == ByAssimp(".ply")
  {
    PlyLowerWord();
    AsWrittenLowerDotted(u, "ply");
    PlySpelled(u, RouteAsWritten(u + "." + "ply"));
  }

  lemma PlyLowerWord()
    ensures IOFormats.LowerWord("ply")
  {
  }

  /** The route of u + "." + "ply" is that of u + ".ply". */
  lemma PlySpelled(u: string, r: Route)
    requires RouteAsWritten(u + "." + "ply") == r == ByAssimp("." + "ply")
    ensures RouteAsWritten(u + ".ply") == ByAssimp(".ply")
  {
    PlySuffix(u);
  }

  lemma PlySuffix(u: string)
    ensures u + ".ply" == u + "." + "ply" && "." + "ply" == ".ply"
  {
  }

  /** As written, a file "u.e" with e a lower-case word goes to an AssetExporter under "." + e. */
  lemma AsWrittenLowerDotted(u: string, e: string)
    requires IOFormats.LowerWord(e)
    ensures RouteAsWritten(u + "." + e) == ByAssimp("." + e)
  {
    AsWrittenDotted(u, e);
    IOFormats.LowerWordLower(e);
    DispatchDotted("." + e);
  }

  /** A key that starts with a dot names no helper and goes to an AssetExporter as it is. */
  lemma DispatchDotted(key: string)
    requires key != [] && key[0] == '.'
    ensures Dispatch(key) == ByAssimp(key)
  {
    forall h: Helper ensures HelperExt(h) != key {
      assert HelperExt(h)[0] != '.';
    }
  }

  /** As written, a file "u.e" is routed on "." + e lower-cased. */
  lemma AsWrittenDotted(u: string, e: string)
    requires e != [] && '.' !in e && '/' !in e
    ensures RouteAsWritten(u + "." + e) == Dispatch("." + ToLower(e))
  {
    Paths.ExtensionOfDottedSuffix(u, e);
    ToLowerDotted(e);
  }

  /** No exporter offers a dotted key, so enableFormat refuses the key saveMesh passes, whatever the file. */
  lemma AsWrittenNotOffered(fn: string, available: map<string, string>)
    requires forall e :: e in available ==> IOFormats.PlainWord(e)
    ensures RouteAsWritten(fn).ByAssimp? ==> RouteAsWritten(fn).ext !in available
  {
    AsWrittenNeverNamed(fn);
    var r := RouteAsWritten(fn);
    if r.ByAssimp? {
      assert !IOFormats.PlainWord(r.ext) by {
        assert r.ext[0] == '.';
      }
    }
  }

  /** saveMesh as evidently intended: the key is the lower-case extension without its dot. */
  function SaveRoute(fn: string): Route
  {
    if !Paths.HasExtension(fn) then NoExtension else Dispatch(ToLower(Paths.Extension(fn)[1..]))
  }

  /** The helper names are distinct. */
  lemma DispatchNamed(key: string, h: Helper)
    ensures Dispatch(key) == SaveAs(h) <==> key == HelperExt(h)
  {
    if key == HelperExt(h) {
      match h
      case AsPly =>
      case AsObj =>
      case AsU3d =>
      case AsStl =>
      case As3ds =>
    }
  }

  /** A helper is chosen exactly when the file's extension is that helper's, in any case. */
  lemma SaveRouteNamed(fn: string, h: Helper)
    ensures SaveRoute(fn) == SaveAs(h) <==> ToLower(Paths.Extension(fn)) == "." + HelperExt(h)
  {
    var ext := Paths.Extension(fn);
    if ext != "" {
      var key := ToLower(ext[1..]);
      ToLowerDotted(ext[1..]);
      assert ext == "." + ext[1..];
      assert SaveRoute(fn) == Dispatch(key);
      DispatchNamed(key, h);
      var e := HelperExt(h);
      assert ("." + key)[1..] == key && ("." + e)[1..] == e;
    }
  }

  /** The name a helper saves to: the file with its extension replaced by the helper's. */
  function Target(h: Helper, fn: string): string
  {
    Paths.ReplaceExtension(fn, HelperExt(h))
  }

  /**
   * A helper's target keeps the file's place and stem, carries the helper's
   * extension (so the helper's exporter supports it), and would be routed to
   * the same helper again.
   */
  lemma TargetRoutes(fn: string, h: Helper)
    ensures Target(h, fn) != "" && IOFormats.GetExtension(Target(h, fn)) == HelperExt(h)
    ensures Paths.Extension(Target(h, fn)) == "." + HelperExt(h)
    ensures SaveRoute(Target(h, fn)) == SaveAs(h)
  {
    var e := HelperExt(h);
    IOFormats.ReplacedExtension(fn, e);
    Paths.ReplaceExtensionGives(fn, e);
    IOFormats.LowerWordLower(e);
    ToLowerDotted(e);
    SaveRouteNamed(Target(h, fn), h);
  }

  /** A fresh AssetExporter with ext enabled accepts fname: ext is offered and names the file's own extension. */
  predicate Accepts(fmts: seq<AssetExporter.FormatDesc>, ext: string, fname: string)
  {
    ext in AssetExporter.Available(fmts) && fname != "" && IOFormats.GetExtension(fname) == ToLower(ext)
  }

  /**
   * An AssetExporter with ext enabled saves the mesh to fname. Nothing
   * happens unless it accepts the name; it then stops at a texture it cannot
   * write or exports the mesh's scene, in the format ext names.
   */
  method AssimpSave(m: Mesh, fname: string, ext: string, fmts: seq<AssetExporter.FormatDesc>, fs: Files.FileSystem,
                    writable: set<string>, exportOk: bool, exportErr: string)
    returns (ok: bool, exported: Option<AssetExporter.Export>)
    requires forall i :: 0 <= i < |fmts| && AssetExporter.Eligible(fmts[i]) ==> IOFormats.PlainWord(fmts[i].ext)
    requires forall mid, f :: mid in m.materialIds && f in MaterialFaceIds(m, mid) ==> f in m.faceUVs
    modifies fs
    ensures !Accepts(fmts, ext, fname) || AssetExporter.FailsWithin(m, AssetExporter.TexturePath(fname), old(fs.regular), writable, NumMats(m)) ==>
      !ok && exported == None && fs.regular == old(fs.regular)
    ensures ext !in AssetExporter.Available(fmts) ==> !ok && exported == None && fs.regular == old(fs.regular)
    ensures ok ==> exported.Some? && exported.value.format == ToLower(ext) && fname in fs.regular
    ensures Accepts(fmts, ext, fname) && !AssetExporter.FailsWithin(m, AssetExporter.TexturePath(fname), old(fs.regular), writable, NumMats(m)) ==>
      && exported.Some? && AssetExporter.SceneFrom(exported.value.scene, AssetExporter.SceneParts(m, fname))
      && exported.value.format == ToLower(ext) && ok == exportOk
      && fs.regular == old(fs.regular) + AssetExporter.WrittenWithin(m, AssetExporter.TexturePath(fname), old(fs.regular), writable, NumMats(m))
                       + (if exportOk then {fname} else {})
  {
    var aexp := new AssetExporter.Exporter(fmts);
    var _ := aexp.EnableFormat(ext);
    assert aexp.formats.IsSupported(fname) <==> Accepts(fmts, ext, fname);
    ok, exported := aexp.Save(m, fname, fs, writable, exportOk, exportErr);
  }

  /** saveAsPLY: a PLYExporter saves the mesh under the ".ply" name. */
  method SaveAsPly(m: Mesh, fn: string, fs: Files.FileSystem, opens: bool) returns (ok: bool, text: seq<Line>)
    modifies fs
    ensures ok == (PlyExporter.PlyText(m).err == "")
    ensures text == (if opens then PlyExporter.PlyText(m).lines else [])
    ensures fs.regular == old(fs.regular) + (if opens then {Target(AsPly, fn)} else {})
  {
    var fname := Paths.ReplaceExtension(fn, "ply");
    TargetRoutes(fn, AsPly);
    var exp := new PlyExporter.Exporter();
    ok, text := exp.Save(m, fname, fs, opens);
  }

  /** saveAsOBJ: an OBJExporter that writes textures as they are saves the mesh under the ".obj" name. */
  method SaveAsObj(m: Mesh, fn: string, fs: Files.FileSystem, writable: set<string>, thrown: map<string, string>)
    returns (ok: bool, mtl: seq<Line>, obj: seq<Line>)
    modifies fs
    ensures
      var s := ObjExporter.SaveSpec(m, Target(AsObj, fn), false, writable, thrown);
      ok == s.ok && mtl == s.mtl && obj == s.obj && fs.regular == old(fs.regular) + s.created
  {
    var fname := Paths.ReplaceExtension(fn, "obj");
    TargetRoutes(fn, AsObj);
    var exp := new ObjExporter.Exporter(false);
    ok, mtl, obj := exp.Save(m, fname, fs, writable, thrown);
  }

  lemma StlLower()
    ensures ToLower("stl") == "stl"
  {
    IOFormats.LowerWordLower("stl");
  }

  lemma ThreeDsLower()
    ensures ToLower("3ds") == "3ds"
  {
    IOFormats.LowerWordLower("3ds");
  }

  /** saveAsSTL: an AssetExporter with "stl" enabled saves the mesh under the ".stl" name. */
  method SaveAsStl(m: Mesh, fn: string, fmts: seq<AssetExporter.FormatDesc>, fs: Files.FileSystem,
                   writable: set<string>, exportOk: bool, exportErr: string)
    returns (ok: bool, exported: Option<AssetExporter.Export>)
    requires forall i :: 0 <= i < |fmts| && AssetExporter.Eligible(fmts[i]) ==> IOFormats.PlainWord(fmts[i].ext)
    requires forall mid, f :: mid in m.materialIds && f in MaterialFaceIds(m, mid) ==> f in m.faceUVs
    modifies fs
    ensures "stl" !in AssetExporter.Available(fmts) ==> !ok && exported == None && fs.regular == old(fs.regular)
    ensures ok ==> exported.Some? && exported.value.format == "stl" && Target(AsStl, fn) in fs.regular
  {
    var fname := Target(AsStl, fn);
    StlLower();
    ok, exported := AssimpSave(m, fname, "stl", fmts, fs, writable, exportOk, exportErr);
  }

  /** The 3DS format holds at most this many faces. */
  const MAX_3DS_FACES := 65536

  /**
   * saveAs3DS: a mesh with more faces than 3DS holds is refused before
   * anything is written; otherwise an AssetExporter with "3ds" enabled
   * saves it under the ".3ds" name.
   */
  method SaveAs3ds(m: Mesh, fn: string, fmts: seq<AssetExporter.FormatDesc>, fs: Files.FileSystem,
                   writable: set<string>, exportOk: bool, exportErr: string)
    returns (ok: bool, exported: Option<AssetExporter.Export>)
    requires forall i :: 0 <= i < |fmts| && AssetExporter.Eligible(fmts[i]) ==> IOFormats.PlainWord(fmts[i].ext)
    requires forall mid, f :: mid in m.materialIds && f in MaterialFaceIds(m, mid) ==> f in m.faceUVs
    modifies fs
    ensures NumFaces(m) > MAX_3DS_FACES || "3ds" !in AssetExporter.Available(fmts) ==>
      !ok && exported == None && fs.regular == old(fs.regular)
    ensures ok ==> exported.Some? && exported.value.format == "3ds" && Target(As3ds, fn) in fs.regular
  {
    if NumFaces(m) > MAX_3DS_FACES {
      return false, None;
    }
    var fname := Target(As3ds, fn);
    ThreeDsLower();
    ok, exported := AssimpSave(m, fname, "3ds", fmts, fs, writable, exportOk, exportErr);
  }

  /**
   * saveMesh as written. No named branch can be taken, so a file with an
   * extension goes to an AssetExporter under its dotted key, which no
   * exporter offers: nothing is ever saved.
   */
  method SaveMeshAsWritten(m: Mesh, fn: string, fmts: seq<AssetExporter.FormatDesc>, fs: Files.FileSystem,
                           writable: set<string>, exportOk: bool, exportErr: string)
    returns (ok: bool)
    requires forall i :: 0 <= i < |fmts| && AssetExporter.Eligible(fmts[i]) ==> IOFormats.PlainWord(fmts[i].ext)
    requires forall mid, f :: mid in m.materialIds && f in MaterialFaceIds(m, mid) ==> f in m.faceUVs
    modifies fs
    ensures !ok && fs.regular == old(fs.regular)
  {
    var route := RouteAsWritten(fn);
    AsWrittenNeverNamed(fn);
    ok := false;
    if route.ByAssimp? {
      var aexp := new AssetExporter.Exporter(fmts);
      AsWrittenNotOffered(fn, aexp.available);
      var enabled := aexp.EnableFormat(route.ext);
      // enableFormat refuses the dotted key, so saveMesh never reaches save
      assert !enabled;
    }
  }
}
