/**
 * The Assimp-backed exporter (src/AssetExporter.cpp). It offers the export
 * formats of Assimp's list that pass a filter, and saves a mesh by building an
 * aiScene: one aiMesh per material (its faces' corners copied out, three new
 * vertices per face, with texture coordinates), one more aiMesh without
 * texture coordinates for the faces no material claims, and then hands the
 * scene to Assimp::Exporter. Assimp itself is a parameter here: its format
 * list is given to the constructor, and the outcome of Export is given to
 * doSave.
 */
module AssetExporter {

  import opened Wrappers
  import opened Text
  import opened Remap
  import opened Meshes
  import Paths
  import Images
  import Files
  import IOFormats
  import MeshExporter

  // ---------------------------------------------------------------------------
  // The format table.

  /** Extensions the constructor never offers, whatever Assimp lists. */
  predicate Disallowed(ext: string)
  {
    ext in {"3d", "assbin", "assxml", "dae", "pk3", "xml", "cob", "scn", "mesh.xml", "stp", "glb", "gltf", "x"}
  }

  /** One entry of Assimp's list of export formats. */
  datatype FormatDesc = FormatDesc(ext: string, desc: string)

  /** An entry with an extension and a description, and an extension not on the disallowed list. */
  predicate Eligible(d: FormatDesc)
  {
    d.ext != "" && d.desc != "" && !Disallowed(d.ext)
  }

  /** descSet after the constructor has gone through the entries of fmts. */
  function Seen(fmts: seq<FormatDesc>): set<string>
  {
    if fmts == [] then {}
    else
      var d := fmts[|fmts| - 1];
      Seen(fmts[..|fmts| - 1]) + (if Eligible(d) then {d.desc} else {})
  }

  /** Entry i is taken: it is eligible and its description was not taken before. */
  predicate Kept(fmts: seq<FormatDesc>, i: nat)
    requires i < |fmts|
  {
    Eligible(fmts[i]) && fmts[i].desc !in Seen(fmts[..i])
  }

  /** Entry i is the last taken entry with extension e. */
  predicate LastKept(fmts: seq<FormatDesc>, i: int, e: string)
  {
    0 <= i < |fmts| && Kept(fmts, i) && fmts[i].ext == e && forall j :: i < j < |fmts| && Kept(fmts, j) ==> fmts[j].ext != e
  }

  /** _available after the constructor has gone through the entries of fmts. */
  function Available(fmts: seq<FormatDesc>): map<string, string>
  {
    if fmts == [] then map[]
    else
      var pre, d := fmts[..|fmts| - 1], fmts[|fmts| - 1];
      if Eligible(d) && d.desc !in Seen(pre) then Available(pre)[d.ext := d.desc] else Available(pre)
  }

  /** Whether an entry is taken does not depend on the entries after it. */
  lemma KeptPrefix(fmts: seq<FormatDesc>, n: nat)
    requires n <= |fmts|
    ensures forall i :: 0 <= i < n ==> (Kept(fmts, i) <==> Kept(fmts[..n], i))
  {
    forall i | 0 <= i < n
      ensures Kept(fmts, i) <==> Kept(fmts[..n], i)
    {
      assert fmts[..n][..i] == fmts[..i];
    }
  }

  /**
   * No offered extension is empty or disallowed, every description offered
   * was recorded in descSet, and no two offered extensions share a
   * description.
   */
  lemma {:induction false} AvailableDistinct(fmts: seq<FormatDesc>)
    ensures forall e :: e in Available(fmts) ==> e != "" && !Disallowed(e) && Available(fmts)[e] in Seen(fmts)
    ensures forall e1, e2 :: e1 in Available(fmts) && e2 in Available(fmts) && e1 != e2 ==>
      Available(fmts)[e1] != Available(fmts)[e2]
  {
    if fmts != [] {
      AvailableDistinct(fmts[..|fmts| - 1]);
    }
  }

  /** An extension is offered exactly when some taken entry has it. */
  lemma {:induction false} AvailableMembers(fmts: seq<FormatDesc>)
    ensures forall e :: e in Available(fmts) <==> exists i :: 0 <= i < |fmts| && Kept(fmts, i) && fmts[i].ext == e
  {
    if fmts != [] {
      var n := |fmts| - 1;
      var pre := fmts[..n];
      AvailableMembers(pre);
      KeptPrefix(fmts, n);
      assert Available(fmts) == if Kept(fmts, n) then Available(pre)[fmts[n].ext := fmts[n].desc] else Available(pre);
      forall e | exists i :: 0 <= i < |fmts| && Kept(fmts, i) && fmts[i].ext == e
        ensures e in Available(fmts)
      {
        var i :| 0 <= i < |fmts| && Kept(fmts, i) && fmts[i].ext == e;
        if i < n {
          assert Kept(pre, i) && pre[i].ext == e;
        }
      }
      forall e | e in Available(fmts)
        ensures exists i :: 0 <= i < |fmts| && Kept(fmts, i) && fmts[i].ext == e
      {
        if !(Kept(fmts, n) && fmts[n].ext == e) {
          assert e in Available(pre);
          var i :| 0 <= i < n && Kept(pre, i) && pre[i].ext == e;
          assert Kept(fmts, i) && fmts[i].ext == e;
        }
      }
    }
  }

  /** An offered extension carries the description of the last taken entry that has it. */
  lemma {:induction false} AvailableLastWins(fmts: seq<FormatDesc>)
    ensures forall e :: e in Available(fmts) ==> exists i :: LastKept(fmts, i, e) && Available(fmts)[e] == fmts[i].desc
  {
    if fmts != [] {
      var n := |fmts| - 1;
      var pre := fmts[..n];
      AvailableLastWins(pre);
      KeptPrefix(fmts, n);
      assert Available(fmts) == if Kept(fmts, n) then Available(pre)[fmts[n].ext := fmts[n].desc] else Available(pre);
      forall e | e in Available(fmts)
        ensures exists i :: LastKept(fmts, i, e) && Available(fmts)[e] == fmts[i].desc
      {
        if Kept(fmts, n) && fmts[n].ext == e {
          assert LastKept(fmts, n, e);
        } else {
          assert e in Available(pre) && Available(fmts)[e] == Available(pre)[e];
          var i :| LastKept(pre, i, e) && Available(pre)[e] == pre[i].desc;
          forall j | i < j < |fmts| && Kept(fmts, j)
            ensures fmts[j].ext != e
          {
            if j < n {
              assert Kept(pre, j) && pre[j] == fmts[j];
            } else {
              assert j == n;
            }
          }
          assert LastKept(fmts, i, e);
        }
      }
    }
  }

  // ---------------------------------------------------------------------------
  // The scene handed to Assimp.

  /**
   * An aiMesh as doSave fills it: its faces (three vertex indices each), its
   * vertex positions, its texture coordinates (u, v, 0), the value written to
   * mNumUVComponents[0], and the material index the scene gives it.
   */
  datatype AiMesh = AiMesh(faces: seq<Tri>, vertices: seq<Vec3>, uvs: seq<Vec3>, numUVComponents: nat, materialIndex: int)

  /**
   * An aiMaterial: a new, blank one for the faces without material, or one
   * named after the file's stem and a material id (see Name) and, when the
   * material has a texture, carrying that texture's file name (set for the
   * ambient, specular and diffuse slots alike).
   */
  datatype AiMaterial = Blank | Named(stem: string, matId: int, texture: Option<string>)
  {
    /** The name a named material is given: the stem, '_' and the material id. */
    function Name(): string
      requires Named?
    {
      stem + "_" + IntToString(matId)
    }
  }

  /** One element of doSave's vector of AiMesh: a material and its mesh. */
  datatype AiPart = AiPart(mat: AiMaterial, mesh: AiMesh)

  /** The scene: the root node's mesh indices, the meshes and the materials. */
  datatype Scene = Scene(rootMeshes: seq<int>, meshes: seq<AiMesh>, materials: seq<AiMaterial>)

  /** What is given to Assimp::Exporter::Export: the scene, the format id and the path. */
  datatype Export = Export(scene: Scene, format: string, path: string)

  /** Faces 0, 1, ..., n-1, face i on the vertices 3i, 3i+1 and 3i+2. */
  function FaceIndices(n: nat): (r: seq<Tri>)
    ensures |r| == n
  {
    if n == 0 then [] else FaceIndices(n - 1) + [Tri(3 * (n - 1), 3 * (n - 1) + 1, 3 * (n - 1) + 2)]
  }

  function CornerPositions(m: Mesh, t: Tri): seq<Vec3>
  {
    [Vtx(m, t.a), Vtx(m, t.b), Vtx(m, t.c)]
  }

  /** A texture coordinate as an aiVector3D, with 0 for the unused third component. */
  function UvPoint(p: Vec2): Vec3
  {
    Vec3(p.u, p.v, 0.0)
  }

  function CornerUvs(m: Mesh, mid: int, t: Tri): seq<Vec3>
  {
    [UvPoint(Uv(m, mid, t.a)), UvPoint(Uv(m, mid, t.b)), UvPoint(Uv(m, mid, t.c))]
  }

  /** The corner positions of the listed faces, three per face, in order. */
  function Positions(m: Mesh, fids: seq<int>): (r: seq<Vec3>)
    ensures |r| == 3 * |fids|
  {
    if fids == [] then [] else Positions(m, fids[..|fids| - 1]) + CornerPositions(m, Corners(m, fids[|fids| - 1]))
  }

  /** The corner texture coordinates of the listed faces of material mid, three per face, in order. */
  function TexCoords(m: Mesh, mid: int, fids: seq<int>): (r: seq<Vec3>)
    ensures |r| == 3 * |fids|
  {
    if fids == [] then [] else TexCoords(m, mid, fids[..|fids| - 1]) + CornerUvs(m, mid, UvCorners(m, fids[|fids| - 1]))
  }

  /** The aiMesh setMaterial builds for material mid. */
  function MaterialMesh(m: Mesh, mid: int): AiMesh
  {
    var fids := MaterialFaceIds(m, mid);
    AiMesh(FaceIndices(|fids|), Positions(m, fids), TexCoords(m, mid, fids), 3 * |fids|, 0)
  }

  /** The aiMesh setNonMaterialMesh builds for the faces fids. */
  function PlainMesh(m: Mesh, fids: seq<int>): AiMesh
  {
    AiMesh(FaceIndices(|fids|), Positions(m, fids), [], 0, 0)
  }

  lemma {:induction false} FaceIndicesAt(n: nat)
    ensures forall i :: 0 <= i < n ==> FaceIndices(n)[i] == Tri(3 * i, 3 * i + 1, 3 * i + 2)
  {
    if n > 0 {
      FaceIndicesAt(n - 1);
    }
  }

  lemma {:induction false} PositionsAt(m: Mesh, fids: seq<int>)
    ensures forall i :: 0 <= i < |fids| ==>
      && Positions(m, fids)[3 * i] == Vtx(m, Corners(m, fids[i]).a)
      && Positions(m, fids)[3 * i + 1] == Vtx(m, Corners(m, fids[i]).b)
      && Positions(m, fids)[3 * i + 2] == Vtx(m, Corners(m, fids[i]).c)
  {
    if fids != [] {
      var pre := fids[..|fids| - 1];
      PositionsAt(m, pre);
      assert forall i :: 0 <= i < |pre| ==> fids[i] == pre[i];
    }
  }

  lemma {:induction false} TexCoordsAt(m: Mesh, mid: int, fids: seq<int>)
    ensures forall i :: 0 <= i < |fids| ==>
      && TexCoords(m, mid, fids)[3 * i] == UvPoint(Uv(m, mid, UvCorners(m, fids[i]).a))
      && TexCoords(m, mid, fids)[3 * i + 1] == UvPoint(Uv(m, mid, UvCorners(m, fids[i]).b))
      && TexCoords(m, mid, fids)[3 * i + 2] == UvPoint(Uv(m, mid, UvCorners(m, fids[i]).c))
  {
    if fids != [] {
      var pre := fids[..|fids| - 1];
      TexCoordsAt(m, mid, pre);
      assert forall i :: 0 <= i < |pre| ==> fids[i] == pre[i];
    }
  }

  /**
   * The aiMesh of a material reproduces its faces: face i of the aiMesh is
   * the material's i-th face, each corner k an index of a vertex of its own
   * that holds the position of corner k of that face and the texture
   * coordinate of its uv corner k (third component 0).
   */
  lemma MaterialMeshFaithful(m: Mesh, mid: int)
    ensures var a, fids := MaterialMesh(m, mid), MaterialFaceIds(m, mid);
      && |a.faces| == |fids| && |a.vertices| == |a.uvs| == 3 * |fids|
      && forall i, k :: 0 <= i < |fids| && 0 <= k < 3 ==>
        && a.faces[i].At(k) == 3 * i + k
        && a.vertices[a.faces[i].At(k)] == Vtx(m, Corners(m, fids[i]).At(k))
        && a.uvs[a.faces[i].At(k)] == UvPoint(Uv(m, mid, UvCorners(m, fids[i]).At(k)))
  {
    var fids := MaterialFaceIds(m, mid);
    FaceIndicesAt(|fids|);
    PositionsAt(m, fids);
    TexCoordsAt(m, mid, fids);
  }

  /** The same for the aiMesh of the faces without material, which has no texture coordinates. */
  lemma PlainMeshFaithful(m: Mesh, fids: seq<int>)
    ensures var a := PlainMesh(m, fids);
      && |a.faces| == |fids| && |a.vertices| == 3 * |fids| && a.uvs == [] && a.numUVComponents == 0
      && forall i, k :: 0 <= i < |fids| && 0 <= k < 3 ==>
        && a.faces[i].At(k) == 3 * i + k
        && a.vertices[a.faces[i].At(k)] == Vtx(m, Corners(m, fids[i]).At(k))
  {
    FaceIndicesAt(|fids|);
    PositionsAt(m, fids);
  }

  // ---------------------------------------------------------------------------
  // Building the meshes.

  /** The corner data of the faces up to and including fids[i] extend those before it. */
  lemma PrefixStep(m: Mesh, mid: int, fids: seq<int>, i: nat)
    requires i < |fids|
    ensures Positions(m, fids[..i + 1]) == Positions(m, fids[..i]) + CornerPositions(m, Corners(m, fids[i]))
    ensures TexCoords(m, mid, fids[..i + 1]) == TexCoords(m, mid, fids[..i]) + CornerUvs(m, mid, UvCorners(m, fids[i]))
  {
    assert fids[..i + 1][..i] == fids[..i];
  }

  /** The k-loop of setMaterial: the three corners' positions and texture coordinates, in winding order. */
  method CopyCorners(m: Mesh, matId: int, vtxs: Tri, uvids: Tri) returns (vs: seq<Vec3>, us: seq<Vec3>)
    ensures vs == CornerPositions(m, vtxs) && us == CornerUvs(m, matId, uvids)
  {
    vs, us := [], [];
    var k := 0;
    while k < 3
      invariant k <= 3
      invariant vs == CornerPositions(m, vtxs)[..k] && us == CornerUvs(m, matId, uvids)[..k]
    {
      vs := vs + [Vtx(m, vtxs.At(k))];
      us := us + [UvPoint(Uv(m, matId, uvids.At(k)))];
      k := k + 1;
    }
  }

  /** The k-loop of setNonMaterialMesh: the three corners' positions, in winding order. */
  method CopyPositions(m: Mesh, vtxs: Tri) returns (vs: seq<Vec3>)
    ensures vs == CornerPositions(m, vtxs)
  {
    vs := [];
    var k := 0;
    while k < 3
      invariant k <= 3 && vs == CornerPositions(m, vtxs)[..k]
    {
      vs := vs + [Vtx(m, vtxs.At(k))];
      k := k + 1;
    }
  }

  /**
   * setMaterial: for each face of the material, erase it from remfids and
   * copy its three corners (position and texture coordinate) to three new
   * vertices, which the new face indexes in order.
   */
  method SetMaterial(m: Mesh, matId: int, remfids: seq<int>) returns (mesh: AiMesh, rem: seq<int>)
    requires forall f :: f in MaterialFaceIds(m, matId) ==> f in m.faceUVs
    ensures mesh == MaterialMesh(m, matId)
    ensures rem == Keep(remfids, Elements(MaterialFaceIds(m, matId)))
  {
    var fids := MaterialFaceIds(m, matId);
    var faces: seq<Tri> := [];
    var vertices: seq<Vec3> := [];
    var uvs: seq<Vec3> := [];
    rem := remfids;
    KeepNothing(remfids);
    assert Elements(fids[..0]) == {};
    var i, j := 0, 0;
    while i < |fids|
      invariant i <= |fids| && j == 3 * i
      invariant faces == FaceIndices(i)
      invariant vertices == Positions(m, fids[..i]) && uvs == TexCoords(m, matId, fids[..i])
      invariant rem == Keep(remfids, Elements(fids[..i]))
    {
      var fid := fids[i];
      EraseNext(remfids, fids, i);
      rem := Keep(rem, {fid});
      PrefixStep(m, matId, fids, i);
      var vs, us := CopyCorners(m, matId, Corners(m, fid), m.faceUVs[fid]);
      vertices, uvs := vertices + vs, uvs + us;
      faces := faces + [Tri(j, j + 1, j + 2)];
      i, j := i + 1, j + 3;
    }
    assert fids[..i] == fids;
    mesh := AiMesh(faces, vertices, uvs, j, 0);
  }

  /** setNonMaterialMesh: the same copying for the faces in remfids, without texture coordinates. */
  method SetNonMaterialMesh(m: Mesh, remfids: seq<int>) returns (mesh: AiMesh)
    ensures mesh == PlainMesh(m, remfids)
  {
    var faces: seq<Tri> := [];
    var vertices: seq<Vec3> := [];
    var i, j := 0, 0;
    while i < |remfids|
      invariant i <= |remfids| && j == 3 * i
      invariant faces == FaceIndices(i) && vertices == Positions(m, remfids[..i])
    {
      PrefixStep(m, 0, remfids, i);
      var vs := CopyPositions(m, Corners(m, remfids[i]));
      vertices := vertices + vs;
      faces := faces + [Tri(j, j + 1, j + 2)];
      i, j := i + 1, j + 3;
    }
    assert remfids[..i] == remfids;
    mesh := AiMesh(faces, vertices, [], 0, 0);
  }

  /**
   * The scene createSceneFromMeshes makes of the parts: the root node lists
   * every mesh, mesh i takes material i, and the materials are the parts'.
   */
  predicate SceneFrom(s: Scene, parts: seq<AiPart>)
  {
    && |s.rootMeshes| == |parts| && |s.meshes| == |parts| && |s.materials| == |parts|
    && forall i :: 0 <= i < |parts| ==>
      s.rootMeshes[i] == i && s.meshes[i] == parts[i].mesh.(materialIndex := i) && s.materials[i] == parts[i].mat
  }

  /** createSceneFromMeshes: every mesh ends up attached to its own part's material. */
  method CreateScene(parts: seq<AiPart>) returns (scene: Scene)
    ensures SceneFrom(scene, parts)
    ensures forall i :: 0 <= i < |parts| ==>
      0 <= scene.meshes[i].materialIndex < |scene.materials| && scene.materials[scene.meshes[i].materialIndex] == parts[i].mat
  {
    var root: seq<int> := [];
    var meshes: seq<AiMesh> := [];
    var materials: seq<AiMaterial> := [];
    var i := 0;
    while i < |parts|
      invariant i <= |parts| && |root| == i && |meshes| == i && |materials| == i
      invariant forall k :: 0 <= k < i ==>
        root[k] == k && meshes[k] == parts[k].mesh.(materialIndex := k) && materials[k] == parts[k].mat
    {
      root := root + [i];
      meshes := meshes + [parts[i].mesh.(materialIndex := i)];
      materials := materials + [parts[i].mat];
      i := i + 1;
    }
    scene := Scene(root, meshes, materials);
  }

  // ---------------------------------------------------------------------------
  // Materials and their texture.

  const TEXTURE_FAILED := "Cannot save texture to "

  const EXPORT_FAILED := "Cannot save model! Assimp::Exporter error: "

  /** The prefix of doSave's error messages. */
  function WritePrefix(fname: string): string
  {
    "AssetExporter::write( " + fname + "): "
  }

  /** Where a texture is saved: the file's directory, its stem, then ".png". */
  function TexturePath(fname: string): string
  {
    Paths.Join(Paths.ParentPath(fname), Paths.Stem(fname)) + ".png"
  }

  /** The file name a material records for its texture. */
  function TextureFile(fname: string): string
  {
    Paths.Filename(TexturePath(fname))
  }

  /**
   * The aiMaterial saveMaterialTexture fills for material matId, given the
   * stem of the file and TextureFile of the file.
   */
  function MaterialOf(m: Mesh, matId: int, stem: string, texfile: string): AiMaterial
  {
    Named(stem, matId, if Images.Empty(Texture(m, matId)) then None else Some(texfile))
  }

  /** Different materials of a file get different names. */
  lemma MaterialNamesDistinct(m: Mesh, fname: string, a: int, b: int)
    requires a != b
    ensures MaterialOf(m, a, Paths.Stem(fname), TextureFile(fname)).Name() != MaterialOf(m, b, Paths.Stem(fname), TextureFile(fname)).Name()
  {
    var p := Paths.Stem(fname) + "_";
    var na, nb := p + IntToString(a), p + IntToString(b);
    if na == nb {
      assert na[|p|..] == IntToString(a);
      assert nb[|p|..] == IntToString(b);
      IntToStringInjective(a, b);
    }
  }

  /**
   * The texture's file name is the stem with ".png": the directory part is
   * dropped again. With an empty stem, `ppath / fstem` is the directory
   * itself, so the name is the directory's own filename with ".png".
   */
  lemma TextureFileName(fname: string)
    ensures Paths.Stem(fname) != "" ==> TextureFile(fname) == Paths.Stem(fname) + ".png"
    ensures Paths.Stem(fname) == "" ==> TexturePath(fname) == Paths.ParentPath(fname) + ".png"
    ensures Paths.Stem(fname) == "" ==> TextureFile(fname) == Paths.Filename(Paths.ParentPath(fname)) + ".png"
  {
    var dir, s, png := Paths.ParentPath(fname), Paths.Stem(fname), ".png";
    Paths.StemNoSeparator(fname);
    if s != "" {
      Paths.FilenameOfJoin(dir, s);
    }
    assert '/' !in png;
    Paths.FilenameAppend(Paths.Join(dir, s), png);
  }

  /**
   * For "dir/stem.ext" the texture is "dir/stem.png", and "dir.png" when the
   * stem is empty, where dir has lost the separators it ended with
   * ("d//.stl" gives "d.png").
   */
  lemma TexturePathOf(dir: string, stem: string, e: string)
    requires Paths.TrimSeparators(dir) != "" && '/' !in stem && '.' !in stem
    requires e != [] && '.' !in e && '/' !in e
    ensures var d := Paths.TrimSeparators(dir);
      TexturePath(dir + "/" + stem + "." + e) == (if stem == "" then d else d + "/" + stem) + ".png"
  {
    Paths.JoinStemOf(dir, stem, e);
  }

  /**
   * Every textured material refers to the same file, the stem with ".png"
   * when the stem is not empty: the first textured material saves it and the
   * later ones find it present, so their own textures are never saved.
   */
  lemma SharedTexture(m: Mesh, fname: string, a: int, b: int)
    requires !Images.Empty(Texture(m, a)) && !Images.Empty(Texture(m, b))
    ensures var stem, texfile := Paths.Stem(fname), TextureFile(fname);
      MaterialOf(m, a, stem, texfile).texture == MaterialOf(m, b, stem, texfile).texture == Some(texfile)
    ensures var stem, texfile := Paths.Stem(fname), TextureFile(fname);
      stem != "" ==> MaterialOf(m, a, stem, texfile).texture == Some(stem + ".png")
  {
    TextureFileName(fname);
  }

  /**
   * saveMaterialTexture: name the material; if it has a texture, record the
   * texture's file name and write the image unless a file of that path
   * exists already (`writable` says where cv::imwrite succeeds).
   */
  method SaveMaterialTexture(m: Mesh, matId: int, fname: string, fs: Files.FileSystem, writable: set<string>)
    returns (mat: AiMaterial, err: string)
    modifies fs
    ensures mat == MaterialOf(m, matId, Paths.Stem(fname), TextureFile(fname))
    ensures var path, textured := TexturePath(fname), !Images.Empty(Texture(m, matId));
      && (err != "" <==> textured && path !in old(fs.regular) && path !in writable)
      && (err != "" ==> err == TEXTURE_FAILED + path)
      && fs.regular == old(fs.regular) + (if textured && path !in old(fs.regular) && path in writable then {path} else {})
  {
    var stem := Paths.Stem(fname);
    var txmap := Texture(m, matId);
    var imgpath := TexturePath(fname);
    err := "";
    if !Images.Empty(txmap) {
      mat := Named(stem, matId, Some(Paths.Filename(imgpath)));
      TexturePathNotEmpty(fname);
      err := SaveIfMissing(imgpath, fs, writable);
    } else {
      mat := Named(stem, matId, None);
      assert fs.regular == old(fs.regular) + {};
    }
  }

  lemma TexturePathNotEmpty(fname: string)
    ensures TexturePath(fname) != ""
  {
    assert |TexturePath(fname)| >= |".png"|;
  }

  /** Write the texture to path unless a file of that path exists already (`writable` says where cv::imwrite succeeds). */
  method SaveIfMissing(path: string, fs: Files.FileSystem, writable: set<string>) returns (err: string)
    requires path != ""
    modifies fs
    ensures err != "" <==> path !in old(fs.regular) && path !in writable
    ensures err != "" ==> err == TEXTURE_FAILED + path
    ensures fs.regular == old(fs.regular) + (if path !in old(fs.regular) && path in writable then {path} else {})
  {
    err := "";
    if !fs.IsRegularFile(path) {
      if path in writable {
        fs.Create(path);
      } else {
        err := TEXTURE_FAILED + path;
        assert fs.regular == old(fs.regular) + {};
      }
    } else {
      assert fs.regular == old(fs.regular) + {};
    }
  }

  // ---------------------------------------------------------------------------
  // What doSave builds.

  /** The parts of the first n listed materials. */
  function MaterialParts(m: Mesh, stem: string, texfile: string, n: nat): (r: seq<AiPart>)
    requires n <= NumMats(m)
    ensures |r| == n
  {
    if n == 0 then []
    else
      var mid := m.materialIds[n - 1];
      MaterialParts(m, stem, texfile, n - 1) + [AiPart(MaterialOf(m, mid, stem, texfile), MaterialMesh(m, mid))]
  }

  /** All the parts: one per material, then the faces no material claims, if there are any. */
  function SceneParts(m: Mesh, fname: string): seq<AiPart>
  {
    MaterialParts(m, Paths.Stem(fname), TextureFile(fname), NumMats(m))
      + (if Remaining(m) == [] then [] else [AiPart(Blank, PlainMesh(m, Remaining(m)))])
  }

  /** Some of the first n listed materials has a texture. */
  predicate TexturedWithin(m: Mesh, n: nat)
    requires n <= NumMats(m)
  {
    n > 0 && (TexturedWithin(m, n - 1) || !Images.Empty(Texture(m, m.materialIds[n - 1])))
  }

  lemma {:induction false} TexturedWithinGrows(m: Mesh, k: nat, n: nat)
    requires k <= n <= NumMats(m) && TexturedWithin(m, k)
    ensures TexturedWithin(m, n)
  {
    if k < n {
      TexturedWithinGrows(m, k, n - 1);
    }
  }

  /**
   * Saving the texture at `path` fails among the first n materials: one has
   * a texture, and the file is missing and cannot be written.
   */
  predicate FailsWithin(m: Mesh, path: string, regular: set<string>, writable: set<string>, n: nat)
    requires n <= NumMats(m)
  {
    TexturedWithin(m, n) && path !in regular && path !in writable
  }

  /** The file the first n materials write: the texture's, once, if one has a texture and the file is missing. */
  function WrittenWithin(m: Mesh, path: string, regular: set<string>, writable: set<string>, n: nat): set<string>
    requires n <= NumMats(m)
  {
    if TexturedWithin(m, n) && path !in regular && path in writable then {path} else {}
  }

  /**
   * One material's texture in the material loop: it fails exactly when the
   * file is still missing and cannot be written, and otherwise the written
   * files are those of the first k + 1 materials.
   */
  lemma TextureStep(m: Mesh, path: string, r0: set<string>, writable: set<string>, k: nat,
                    regular: set<string>, regular': set<string>, failed: bool)
    requires k < NumMats(m)
    requires regular == r0 + WrittenWithin(m, path, r0, writable, k) && !FailsWithin(m, path, r0, writable, k)
    requires var textured := !Images.Empty(Texture(m, m.materialIds[k]));
      && (failed <==> textured && path !in regular && path !in writable)
      && regular' == regular + (if textured && path !in regular && path in writable then {path} else {})
    ensures failed ==> FailsWithin(m, path, r0, writable, NumMats(m)) && regular' == r0
    ensures !failed ==> regular' == r0 + WrittenWithin(m, path, r0, writable, k + 1) && !FailsWithin(m, path, r0, writable, k + 1)
  {
    if failed {
      TexturedWithinGrows(m, k + 1, NumMats(m));
    }
  }

  /**
   * One pass of doSave's material loop: the material's aiMesh (its faces
   * erased from remfids) and its aiMaterial, with the texture saved.
   */
  method BuildMaterial(m: Mesh, matId: int, fname: string, fs: Files.FileSystem, writable: set<string>, remfids: seq<int>)
    returns (part: AiPart, rem: seq<int>, err: string)
    requires forall f :: f in MaterialFaceIds(m, matId) ==> f in m.faceUVs
    modifies fs
    ensures part == AiPart(MaterialOf(m, matId, Paths.Stem(fname), TextureFile(fname)), MaterialMesh(m, matId))
    ensures rem == Keep(remfids, Elements(MaterialFaceIds(m, matId)))
    ensures var path, textured := TexturePath(fname), !Images.Empty(Texture(m, matId));
      && (err != "" <==> textured && path !in old(fs.regular) && path !in writable)
      && (err != "" ==> err == TEXTURE_FAILED + path)
      && fs.regular == old(fs.regular) + (if textured && path !in old(fs.regular) && path in writable then {path} else {})
  {
    var mesh;
    mesh, rem := SetMaterial(m, matId, remfids);
    var mat;
    mat, err := SaveMaterialTexture(m, matId, fname, fs, writable);
    part := AiPart(mat, mesh);
  }

  /**
   * The material loop of doSave: a part per material, erasing the material's
   * faces from remfids, until a texture cannot be saved.
   */
  method BuildMaterials(m: Mesh, fname: string, fs: Files.FileSystem, writable: set<string>)
    returns (parts: seq<AiPart>, rem: seq<int>, err: string)
    requires forall mid, f :: mid in m.materialIds && f in MaterialFaceIds(m, mid) ==> f in m.faceUVs
    modifies fs
    ensures BuildResult(m, fname, old(fs.regular), writable, fs.regular, parts, rem, err)
  {
    ghost var r0 := fs.regular;
    var k;
    parts, rem, err, k := BuildLoopRun(m, fname, fs, writable, r0);
    BuildLoopEnd(m, fname, r0, writable, fs.regular, k, parts, rem, err);
  }

  /** The loop itself: it stops after the last material or at the first texture that cannot be saved. */
  method BuildLoopRun(m: Mesh, fname: string, fs: Files.FileSystem, writable: set<string>, ghost r0: set<string>)
    returns (parts: seq<AiPart>, rem: seq<int>, err: string, k: nat)
    requires forall mid, f :: mid in m.materialIds && f in MaterialFaceIds(m, mid) ==> f in m.faceUVs
    requires fs.regular == r0
    modifies fs
    ensures k >= NumMats(m) || err != ""
    ensures BuildState(m, fname, r0, writable, fs.regular, k, parts, rem, err)
  {
    parts, rem, err := [], m.faces, "";
    BuildLoopStart(m, fname, r0, writable);
    k := 0;
    while k < |m.materialIds| && err == ""
      invariant BuildState(m, fname, r0, writable, fs.regular, k, parts, rem, err)
    {
      parts, rem, err := BuildStep(m, fname, fs, writable, r0, k, parts, rem);
      k := k + 1;
    }
  }

  /**
   * What doSave's material loop ends with: when some material's texture
   * cannot be saved, its error and the files as they were; otherwise a part
   * per material, the faces no material claims, and the texture written if
   * it was missing.
   */
  ghost predicate BuildResult(m: Mesh, fname: string, r0: set<string>, writable: set<string>, regular: set<string>,
                              parts: seq<AiPart>, rem: seq<int>, err: string)
  {
    BuildOutcome(m, Paths.Stem(fname), TextureFile(fname), TexturePath(fname), r0, writable, regular, parts, rem, err)
  }

  /** BuildResult for a file of the given stem, texture file name and texture path. */
  ghost predicate BuildOutcome(m: Mesh, stem: string, texfile: string, path: string, r0: set<string>, writable: set<string>,
                               regular: set<string>, parts: seq<AiPart>, rem: seq<int>, err: string)
  {
    var fails := FailsWithin(m, path, r0, writable, NumMats(m));
    && (fails ==> err == TEXTURE_FAILED + path && regular == r0)
    && (!fails ==> && err == "" && parts == MaterialParts(m, stem, texfile, NumMats(m)) && rem == Remaining(m)
                   && regular == r0 + WrittenWithin(m, path, r0, writable, NumMats(m)))
  }

  lemma BuildLoopEnd(m: Mesh, fname: string, r0: set<string>, writable: set<string>, regular: set<string>,
                     k: int, parts: seq<AiPart>, rem: seq<int>, err: string)
    requires k >= NumMats(m) || err != ""
    requires BuildState(m, fname, r0, writable, regular, k, parts, rem, err)
    ensures BuildResult(m, fname, r0, writable, regular, parts, rem, err)
  {
    if err == "" {
      BuildLoopDone(m, fname, r0, writable, regular, k, parts, rem);
    }
  }

  lemma BuildLoopDone(m: Mesh, fname: string, r0: set<string>, writable: set<string>, regular: set<string>,
                      k: int, parts: seq<AiPart>, rem: seq<int>)
    requires k >= NumMats(m)
    requires BuildLoop(m, Paths.Stem(fname), TextureFile(fname), TexturePath(fname), r0, writable, regular, k, parts, rem)
    ensures BuildResult(m, fname, r0, writable, regular, parts, rem, "")
  {
  }

  /** The loop state: still going after k materials, or stopped with BuildResult's error. */
  ghost predicate BuildState(m: Mesh, fname: string, r0: set<string>, writable: set<string>, regular: set<string>,
                             k: int, parts: seq<AiPart>, rem: seq<int>, err: string)
  {
    && (err == "" ==> BuildLoop(m, Paths.Stem(fname), TextureFile(fname), TexturePath(fname), r0, writable, regular, k, parts, rem))
    && (err != "" ==> BuildResult(m, fname, r0, writable, regular, parts, rem, err))
  }

  /** BuildState for a file of the given stem, texture file name and texture path. */
  ghost predicate BuildStateOf(m: Mesh, stem: string, texfile: string, path: string, r0: set<string>, writable: set<string>,
                               regular: set<string>, k: int, parts: seq<AiPart>, rem: seq<int>, err: string)
  {
    && (err == "" ==> BuildLoop(m, stem, texfile, path, r0, writable, regular, k, parts, rem))
    && (err != "" ==> BuildOutcome(m, stem, texfile, path, r0, writable, regular, parts, rem, err))
  }

  /** What doSave's material loop keeps after k materials: their parts, the faces left and the files written. */
  ghost predicate BuildLoop(m: Mesh, stem: string, texfile: string, path: string, r0: set<string>, writable: set<string>,
                            regular: set<string>, k: int, parts: seq<AiPart>, rem: seq<int>)
  {
    0 <= k <= NumMats(m)
    && parts == MaterialParts(m, stem, texfile, k)
    && rem == Keep(m.faces, MatFaceSet(m, m.materialIds, k))
    && regular == r0 + WrittenWithin(m, path, r0, writable, k)
    && !FailsWithin(m, path, r0, writable, k)
  }

  lemma BuildLoopStart(m: Mesh, fname: string, r0: set<string>, writable: set<string>)
    ensures BuildState(m, fname, r0, writable, r0, 0, [], m.faces, "")
  {
    KeepNothing(m.faces);
  }

  /** One pass of doSave's material loop: BuildState after k + 1 materials, or stopped by the texture. */
  method BuildStep(m: Mesh, fname: string, fs: Files.FileSystem, writable: set<string>, ghost r0: set<string>,
                   k: nat, parts: seq<AiPart>, rem: seq<int>)
    returns (parts': seq<AiPart>, rem': seq<int>, err: string)
    requires forall mid, f :: mid in m.materialIds && f in MaterialFaceIds(m, mid) ==> f in m.faceUVs
    requires k < NumMats(m) && BuildState(m, fname, r0, writable, fs.regular, k, parts, rem, "")
    modifies fs
    ensures BuildState(m, fname, r0, writable, fs.regular, k + 1, parts', rem', err)
  {
    var mid := m.materialIds[k];
    ghost var regular := fs.regular;
    var part;
    part, rem', err := BuildMaterial(m, mid, fname, fs, writable, rem);
    parts' := parts + [part];
    BuildStepOf(m, Paths.Stem(fname), TextureFile(fname), TexturePath(fname), r0, writable, k, regular, parts, rem,
                fs.regular, part, rem', err);
  }

  /** BuildStep on the loop state, for a file of the given stem, texture file name and texture path. */
  lemma BuildStepOf(m: Mesh, stem: string, texfile: string, path: string, r0: set<string>, writable: set<string>,
                    k: nat, regular: set<string>, parts: seq<AiPart>, rem: seq<int>,
                    regular': set<string>, part: AiPart, rem': seq<int>, err: string)
    requires k < NumMats(m) && BuildStateOf(m, stem, texfile, path, r0, writable, regular, k, parts, rem, "")
    requires var mid := m.materialIds[k];
      var textured := !Images.Empty(Texture(m, mid));
      && part == AiPart(MaterialOf(m, mid, stem, texfile), MaterialMesh(m, mid))
      && rem' == Keep(rem, Elements(MaterialFaceIds(m, mid)))
      && (err != "" <==> textured && path !in regular && path !in writable)
      && (err != "" ==> err == TEXTURE_FAILED + path)
      && regular' == regular + (if textured && path !in regular && path in writable then {path} else {})
    ensures BuildStateOf(m, stem, texfile, path, r0, writable, regular', k + 1, parts + [part], rem', err)
  {
    KeepKeep(m.faces, MatFaceSet(m, m.materialIds, k), Elements(MaterialFaceIds(m, m.materialIds[k])));
    TextureStep(m, path, r0, writable, k, regular, regular', err != "");
  }

  /** The faces of the parts, added up. */
  function FaceCount(parts: seq<AiPart>): nat
  {
    if parts == [] then 0 else FaceCount(parts[..|parts| - 1]) + |parts[|parts| - 1].mesh.faces|
  }

  lemma {:induction false} MaterialPartsFaces(m: Mesh, stem: string, texfile: string, n: nat)
    requires n <= NumMats(m)
    ensures FaceCount(MaterialParts(m, stem, texfile, n)) == FaceTotal(m, m.materialIds, n)
  {
    if n > 0 {
      MaterialPartsFaces(m, stem, texfile, n - 1);
      assert MaterialParts(m, stem, texfile, n)[..n - 1] == MaterialParts(m, stem, texfile, n - 1);
    }
  }

  lemma FaceCountAppend(parts: seq<AiPart>, p: AiPart)
    ensures FaceCount(parts + [p]) == FaceCount(parts) + |p.mesh.faces|
  {
    assert (parts + [p])[..|parts|] == parts;
  }

  /**
   * The scene's layout: part i is material i's, named and with its own
   * aiMesh, and a last blank part holds the faces without material when
   * there are any.
   */
  lemma SceneLayout(m: Mesh, fname: string)
    ensures var parts := SceneParts(m, fname);
      && |parts| == NumMats(m) + (if Remaining(m) == [] then 0 else 1)
      && (forall i :: 0 <= i < NumMats(m) ==>
            parts[i] == AiPart(MaterialOf(m, m.materialIds[i], Paths.Stem(fname), TextureFile(fname)), MaterialMesh(m, m.materialIds[i])))
      && (Remaining(m) != [] ==> parts[NumMats(m)] == AiPart(Blank, PlainMesh(m, Remaining(m))))
  {
    PartsLayout(m, Paths.Stem(fname), TextureFile(fname));
  }

  /** SceneLayout for any stem and texture name. */
  lemma PartsLayout(m: Mesh, stem: string, texfile: string)
    ensures var rem := Remaining(m);
      var parts := MaterialParts(m, stem, texfile, NumMats(m)) + (if rem == [] then [] else [AiPart(Blank, PlainMesh(m, rem))]);
      && |parts| == NumMats(m) + (if rem == [] then 0 else 1)
      && (forall i :: 0 <= i < NumMats(m) ==>
            parts[i] == AiPart(MaterialOf(m, m.materialIds[i], stem, texfile), MaterialMesh(m, m.materialIds[i])))
      && (rem != [] ==> parts[NumMats(m)] == AiPart(Blank, PlainMesh(m, rem)))
  {
    var n := NumMats(m);
    var mp := MaterialParts(m, stem, texfile, n);
    MaterialPartsAt(m, stem, texfile, n);
    if Remaining(m) != [] {
      var parts := mp + [AiPart(Blank, PlainMesh(m, Remaining(m)))];
      assert parts[..n] == mp;
    } else {
      assert mp + [] == mp;
    }
  }

  /** The scene of a valid mesh holds as many faces as the mesh. */
  lemma SceneFaces(m: Mesh, fname: string)
    requires Valid(m)
    ensures FaceCount(SceneParts(m, fname)) == NumFaces(m)
  {
    PartsFaces(m, Paths.Stem(fname), TextureFile(fname));
  }

  /** SceneFaces for any stem and texture name. */
  lemma PartsFaces(m: Mesh, stem: string, texfile: string)
    requires Valid(m)
    ensures var rem := Remaining(m);
      FaceCount(MaterialParts(m, stem, texfile, NumMats(m)) + (if rem == [] then [] else [AiPart(Blank, PlainMesh(m, rem))])) == NumFaces(m)
  {
    var n, rem := NumMats(m), Remaining(m);
    var mp := MaterialParts(m, stem, texfile, n);
    MaterialPartsFaces(m, stem, texfile, n);
    ValidFaceCount(m);
    if rem != [] {
      var blank := AiPart(Blank, PlainMesh(m, rem));
      FaceCountAppend(mp, blank);
      assert |blank.mesh.faces| == |rem|;
    } else {
      assert mp + [] == mp;
    }
  }

  lemma {:induction false} MaterialPartsAt(m: Mesh, stem: string, texfile: string, n: nat)
    requires n <= NumMats(m)
    ensures forall i :: 0 <= i < n ==>
      MaterialParts(m, stem, texfile, n)[i] == AiPart(MaterialOf(m, m.materialIds[i], stem, texfile), MaterialMesh(m, m.materialIds[i]))
  {
    if n > 0 {
      MaterialPartsAt(m, stem, texfile, n - 1);
    }
  }

  /**
   * The scene doSave exports: the material loop, then a blank part for the
   * faces no material claims, if any, then createSceneFromMeshes. A texture
   * that cannot be saved ends the loop with its error and no scene.
   */
  method BuildScene(m: Mesh, fname: string, fs: Files.FileSystem, writable: set<string>)
    returns (scene: Scene, err: string)
    requires forall mid, f :: mid in m.materialIds && f in MaterialFaceIds(m, mid) ==> f in m.faceUVs
    modifies fs
    ensures var fails := FailsWithin(m, TexturePath(fname), old(fs.regular), writable, NumMats(m));
      && (fails ==> err == TEXTURE_FAILED + TexturePath(fname) && fs.regular == old(fs.regular))
      && (!fails ==> && err == "" && SceneFrom(scene, SceneParts(m, fname))
                     && fs.regular == old(fs.regular) + WrittenWithin(m, TexturePath(fname), old(fs.regular), writable, NumMats(m)))
  {
    var parts, rem;
    parts, rem, err := BuildMaterials(m, fname, fs, writable);
    if err != "" {
      return Scene([], [], []), err;
    }
    if rem != [] {
      var mesh := SetNonMaterialMesh(m, rem);
      parts := parts + [AiPart(Blank, mesh)];
    }
    scene := CreateScene(parts);
  }

  // ---------------------------------------------------------------------------
  // The exporter.

  class Exporter {
    const formats: IOFormats.Formats
    const available: map<string, string>

    /** The registry is consistent, and every offered extension is a plain word, as Assimp's are. */
    ghost predicate Valid()
      reads formats
    {
      formats.Valid() && forall e :: e in available ==> IOFormats.PlainWord(e)
    }

    /**
     * The constructor goes through Assimp's export formats and offers each
     * taken one; no format is enabled yet.
     */
    constructor (fmts: seq<FormatDesc>)
      requires forall i :: 0 <= i < |fmts| && Eligible(fmts[i]) ==> IOFormats.PlainWord(fmts[i].ext)
      ensures Valid() && fresh(formats)
      ensures available == Available(fmts)
      ensures formats.exts == [] && formats.descs == map[] && formats.err == ""
    {
      var f := new IOFormats.Formats();
      var descSet: set<string> := {};
      var avail: map<string, string> := map[];
      var i := 0;
      while i < |fmts|
        invariant i <= |fmts|
        invariant descSet == Seen(fmts[..i]) && avail == Available(fmts[..i])
        invariant forall e :: e in avail ==> IOFormats.PlainWord(e)
      {
        var ext, desc := fmts[i].ext, fmts[i].desc;
        assert fmts[..i + 1][..i] == fmts[..i] && fmts[..i + 1][i] == fmts[i];
        if !(ext == "" || desc == "" || desc in descSet || Disallowed(ext)) {
          descSet := descSet + {desc};
          avail := avail[ext := desc];
        }
        i := i + 1;
      }
      assert fmts[..i] == fmts;
      formats := f;
      available := avail;
    }

    /**
     * enableFormat: an offered extension becomes supported (under its
     * lower-case form, with its trimmed description) unless it already is;
     * an extension not offered changes nothing.
     */
    method EnableFormat(ext: string) returns (ok: bool)
      requires Valid()
      modifies formats
      ensures Valid() && formats.err == old(formats.err)
      ensures ok <==> ext in available
      ensures ok ==> ToLower(ext) in formats.descs
      ensures !ok || ToLower(ext) in old(formats.descs) ==>
        formats.exts == old(formats.exts) && formats.descs == old(formats.descs)
      ensures ok && ToLower(ext) !in old(formats.descs) ==>
        && formats.exts == old(formats.exts) + [ToLower(ext)]
        && formats.descs == old(formats.descs)[ToLower(ext) := Trim(available[ext])]
    {
      ok := IOFormats.EnableOffered(formats, available, ext);
    }

    /**
     * doSave: the material loop (which stops at the first texture that
     * cannot be saved), the faces without material, the scene, and the
     * export in the format named by the file's extension. `exportOk` and
     * `exportErr` stand for Assimp::Exporter's outcome and error string; a
     * successful export creates the file.
     */
    method DoSave(m: Mesh, fname: string, fs: Files.FileSystem, writable: set<string>, exportOk: bool, exportErr: string)
      returns (ok: bool, exported: Option<Export>)
      requires Valid()
      requires forall mid, f :: mid in m.materialIds && f in MaterialFaceIds(m, mid) ==> f in m.faceUVs
      modifies formats, fs
      ensures Valid() && formats.exts == old(formats.exts) && formats.descs == old(formats.descs)
      ensures FailsWithin(m, TexturePath(fname), old(fs.regular), writable, NumMats(m)) ==>
        && !ok && exported == None && fs.regular == old(fs.regular)
        && formats.err == WritePrefix(fname) + (TEXTURE_FAILED + TexturePath(fname))
      ensures !FailsWithin(m, TexturePath(fname), old(fs.regular), writable, NumMats(m)) ==>
        && exported.Some? && SceneFrom(exported.value.scene, SceneParts(m, fname))
        && exported.value.format == IOFormats.GetExtension(fname) && exported.value.path == fname
        && ok == exportOk
        && fs.regular == old(fs.regular) + WrittenWithin(m, TexturePath(fname), old(fs.regular), writable, NumMats(m))
                         + (if exportOk then {fname} else {})
        && formats.err == (if exportOk then old(formats.err) else WritePrefix(fname) + EXPORT_FAILED + exportErr)
    {
      var scene, err := BuildScene(m, fname, fs, writable);
      if err != "" {
        formats.SetErr(WritePrefix(fname) + err);
        return false, None;
      }
      ok, exported := ExportScene(scene, fname, fs, exportOk, exportErr);
    }

    /**
     * The end of doSave: the scene goes to Assimp::Exporter in the format
     * the file's extension names; a failed export leaves Assimp's error.
     */
    method ExportScene(scene: Scene, fname: string, fs: Files.FileSystem, exportOk: bool, exportErr: string)
      returns (ok: bool, exported: Option<Export>)
      requires Valid()
      modifies formats, fs
      ensures Valid() && formats.exts == old(formats.exts) && formats.descs == old(formats.descs)
      ensures exported == Some(Export(scene, IOFormats.GetExtension(fname), fname)) && ok == exportOk
      ensures fs.regular == old(fs.regular) + (if exportOk then {fname} else {})
      ensures formats.err == (if exportOk then old(formats.err) else WritePrefix(fname) + EXPORT_FAILED + exportErr)
    {
      var fext := IOFormats.GetExtension(fname);
      exported := Some(Export(scene, fext, fname));
      if exportOk {
        fs.Create(fname);
        ok := true;
      } else {
        formats.SetErr(WritePrefix(fname) + EXPORT_FAILED + exportErr);
        ok := false;
      }
    }

    /** MeshExporter::save on an AssetExporter: the filename guards, then doSave. */
    method Save(m: Mesh, fname: string, fs: Files.FileSystem, writable: set<string>, exportOk: bool, exportErr: string)
      returns (ok: bool, exported: Option<Export>)
      requires Valid()
      requires forall mid, f :: mid in m.materialIds && f in MaterialFaceIds(m, mid) ==> f in m.faceUVs
      modifies formats, fs
      ensures Valid() && formats.exts == old(formats.exts) && formats.descs == old(formats.descs)
      ensures fname == "" ==> formats.err == MeshExporter.EMPTY_FILENAME
      ensures fname != "" && !formats.IsSupported(fname) ==> formats.err == MeshExporter.Unsupported(fname)
      ensures !(fname != "" && formats.IsSupported(fname)) ==> !ok && exported == None && fs.regular == old(fs.regular)
      ensures fname != "" && formats.IsSupported(fname) ==>
        if FailsWithin(m, TexturePath(fname), old(fs.regular), writable, NumMats(m)) then
          !ok && exported == None && fs.regular == old(fs.regular)
          && formats.err == WritePrefix(fname) + (TEXTURE_FAILED + TexturePath(fname))
        else
          && exported.Some? && SceneFrom(exported.value.scene, SceneParts(m, fname))
          && exported.value.format == IOFormats.GetExtension(fname)
          && ok == exportOk
          && fs.regular == old(fs.regular) + WrittenWithin(m, TexturePath(fname), old(fs.regular), writable, NumMats(m))
                           + (if exportOk then {fname} else {})
          && formats.err == (if exportOk then "" else WritePrefix(fname) + EXPORT_FAILED + exportErr)
    {
      var proceed := MeshExporter.CheckSave(formats, fname);
      if !proceed {
        return false, None;
      }
      ok, exported := DoSave(m, fname, fs, writable, exportOk, exportErr);
    }
  }
}
