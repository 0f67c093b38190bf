/**
 * The IDTF writer (src/IDTFExporter.cpp): the model resource that picks the
 * exported faces and numbers their vertices and texture coordinates in
 * first-use order, the MESH block written from it, the fixed node, shader,
 * material, texture and modifier blocks around it, and the exporter object
 * that records the files it produces and deletes them again.
 */
module IdtfExporter {

  import opened Wrappers
  import opened Text
  import opened Paths
  import opened Remap
  import opened Meshes
  import opened Images
  import Files
  import IOFormats
  import TgaImage
  import MeshExporter

  /** The emissive colour written into the material resource. */
  datatype Colour = Colour(r: real, g: real, b: real)

  // ---------------------------------------------------------------------------
  // What the model resource exports.

  /** The material exported: the first listed one, or -1 when the mesh has none. */
  function MatId(m: Mesh): int
  {
    if HasMaterials(m) then m.materialIds[0] else -1
  }

  /** The faces exported, in iteration order: those of the exported material, or all faces for -1. */
  function Partition(m: Mesh): seq<int>
  {
    if MatId(m) < 0 then m.faces else MaterialFaceIds(m, MatId(m))
  }

  function Corners3(t: Tri): (r: seq<int>)
    ensures |r| == 3 && forall k :: 0 <= k < 3 ==> r[k] == t.At(k)
  {
    [t.a, t.b, t.c]
  }

  /** The corner ids the faces reference, three per face in winding order. */
  function FaceVerts(m: Mesh, fids: seq<int>): (r: seq<int>)
  {
    if fids == [] then []
    else FaceVerts(m, fids[..|fids| - 1]) + Corners3(Corners(m, fids[|fids| - 1]))
  }

  /** The uv ids of the faces that carry a material, three per such face. */
  function FaceUVIds(m: Mesh, fids: seq<int>): (r: seq<int>)
  {
    if fids == [] then []
    else
      var f := fids[|fids| - 1];
      FaceUVIds(m, fids[..|fids| - 1])
        + (if FaceMaterialId(m, f) >= 0 && f in m.faceUVs then Corners3(m.faceUVs[f]) else [])
  }

  /** The texture coordinates of a material for a list of uv ids. */
  function UvList(m: Mesh, mid: int, ids: seq<int>): (r: seq<Vec2>)
    ensures |r| == |ids|
  {
    if ids == [] then [] else UvList(m, mid, ids[..|ids| - 1]) + [Uv(m, mid, ids[|ids| - 1])]
  }

  /**
   * What the ModelResource constructor dereferences: the corner triple of
   * every exported face, and the uv triple of every exported face that
   * carries a material.
   */
  predicate Dereferenceable(m: Mesh)
  {
    forall f :: f in Partition(m) ==> f in m.fvidxs && (FaceMaterialId(m, f) >= 0 ==> f in m.faceUVs)
  }

  /**
   * The state of a ModelResource: the exported faces, the vertex ids and uv
   * ids in first-use order with their id-to-index tables, and the texture
   * coordinates listed for the uv ids.
   */
  datatype Resource = Resource(
    mesh: Mesh,
    media9: bool,
    fidv: seq<int>,
    vidv: seq<int>,
    vmap: map<int, int>,
    uvids: seq<int>,
    uvmap: map<int, int>,
    uvlist: seq<Vec2>)
  {
    /** The state the constructor leaves. */
    ghost predicate Built()
    {
      this == BuildSpec(mesh, media9)
    }

    function HasTX(): bool
    {
      NumMats(mesh) > 0
    }

    /** _writeHeader: the counts of the lists that follow. */
    function Header(): seq<Line>
    {
      [ Line(3, [W("FACE_COUNT"), I(|fidv|)]),
        Line(3, [W("MODEL_POSITION_COUNT"), I(|vidv|)]),
        Line(3, [W("MODEL_NORMAL_COUNT"), I(3 * |fidv|)]),
        L(3, "MODEL_DIFFUSE_COLOR_COUNT 0"),
        L(3, "MODEL_SPECULAR_COLOR_COUNT 0"),
        Line(3, [W("MODEL_TEXTURE_COORD_COUNT"), I(|uvmap|)]),
        L(3, "MODEL_BONE_COUNT 0"),
        L(3, "MODEL_SHADING_COUNT 1") ]
    }

    /** _writeShadingDescriptionList: one shading description, with one 2D texture layer iff the mesh has materials. */
    function ShadingDescriptionList(): seq<Line>
    {
      [ L(3, "MODEL_SHADING_DESCRIPTION_LIST {"),
        L(4, "SHADING_DESCRIPTION 0 {"),
        Line(5, [W("TEXTURE_LAYER_COUNT"), I(if HasTX() then 1 else 0)]) ]
      + (if HasTX() then
           [L(5, "TEXTURE_COORD_DIMENSION_LIST {"), L(6, "TEXTURE_LAYER 0 DIMENSION: 2"), L(5, "}")]
         else [])
      + [L(5, "SHADER_ID 0"), L(4, "}"), L(3, "}")]
    }

    /** The position-list indices of a face's corners, in winding order. */
    function PositionIndices(t: Tri): (r: Line)
      requires t.a in vmap && t.b in vmap && t.c in vmap
    {
      Line(4, [I(vmap[t.a]), I(vmap[t.b]), I(vmap[t.c])])
    }

    /** One position-index line per face. */
    function FacePositions(fids: seq<int>): (r: seq<Line>)
      requires forall f :: f in fids ==> Corners(mesh, f).a in vmap && Corners(mesh, f).b in vmap && Corners(mesh, f).c in vmap
      ensures |r| == |fids|
      ensures forall j :: 0 <= j < |fids| ==> r[j] == PositionIndices(Corners(mesh, fids[j]))
    {
      if fids == [] then [] else [PositionIndices(Corners(mesh, fids[0]))] + FacePositions(fids[1..])
    }

    /** _writeFacePositionList: every exported face as three indices into the position list. */
    function FacePositionList(): (r: seq<Line>)
      requires Built()
      ensures |r| == |fidv| + 2
    {
      CornersIndexed(this);
      [L(3, "MESH_FACE_POSITION_LIST {")] + FacePositions(fidv) + [L(3, "}")]
    }

    /** _writeFaceNormalList: the normal indices i, i+1, i+2 of n faces, starting at i. */
    function NormalTriples(i: int, n: nat): (r: seq<Line>)
      decreases n
      ensures |r| == n
      ensures forall j :: 0 <= j < n ==> r[j] == Line(4, [I(i + 3 * j), I(i + 3 * j + 1), I(i + 3 * j + 2)])
    {
      if n == 0 then []
      else
        var rest := NormalTriples(i + 3, n - 1);
        var r := [Line(4, [I(i), I(i + 1), I(i + 2)])] + rest;
        assert forall j :: 1 <= j < n ==> r[j] == rest[j - 1];
        r
    }

    function FaceNormalList(): (r: seq<Line>)
      ensures |r| == |fidv| + 2
    {
      [L(3, "MESH_FACE_NORMAL_LIST {")] + NormalTriples(0, |fidv|) + [L(3, "}")]
    }

    /** _writeFaceShadingList: shader 0 for every face. */
    function FaceShadingList(): (r: seq<Line>)
      ensures |r| == |fidv| + 2
    {
      [L(3, "MESH_FACE_SHADING_LIST {")] + seq(|fidv|, j => Line(4, [I(0)])) + [L(3, "}")]
    }

    /**
     * The FACE blocks of faces i.. of the face texture coordinate list: each
     * looks up the list index of the face's three uv ids, and the first face
     * whose uv ids are not all listed stops the writing with the error of
     * unordered_map::at, after the blocks of the faces before it.
     */
    function FaceTextureCoords(i: nat): (o: Out)
      requires i <= |fidv|
      decreases |fidv| - i
    {
      if i == |fidv| then Out([], "")
      else
        var f := fidv[i];
        if f in mesh.faceUVs && mesh.faceUVs[f].a in uvmap && mesh.faceUVs[f].b in uvmap && mesh.faceUVs[f].c in uvmap then
          var t := mesh.faceUVs[f];
          var rest := FaceTextureCoords(i + 1);
          Out([ Line(4, [W("FACE"), I(i), W("{")]),
                Line(5, [W("TEXTURE_LAYER 0 TEX_COORD:"), I(uvmap[t.a]), I(uvmap[t.b]), I(uvmap[t.c])]),
                L(4, "}") ] + rest.lines,
              rest.err)
        else Out([], MAP_AT)
    }

    /** _writeFaceTextureCoordList. */
    function FaceTextureCoordList(): (o: Out)
    {
      var fc := FaceTextureCoords(0);
      Out([L(3, "MESH_FACE_TEXTURE_COORD_LIST {")] + fc.lines + (if fc.err == "" then [L(3, "}")] else []), fc.err)
    }

    /** _writePositionList: the position of every listed vertex, as (x, -z, y) for media9. */
    function PositionList(): (r: seq<Line>)
      ensures |r| == |vidv| + 2
    {
      [L(3, "MODEL_POSITION_LIST {")]
      + seq(|vidv|, i requires 0 <= i < |vidv| => Line(4, Coords(Placed(media9, Vtx(mesh, vidv[i])))))
      + [L(3, "}")]
    }

    /** _writeNormalList: three zero normals per face. */
    function NormalList(): (r: seq<Line>)
      ensures |r| == 3 * |fidv| + 2
    {
      [L(3, "MODEL_NORMAL_LIST {")] + seq(3 * |fidv|, j => Line(4, [F(0.0), F(0.0), F(0.0)])) + [L(3, "}")]
    }

    /** _writeTextureCoordList: every listed texture coordinate padded with two zeros. */
    function TextureCoordList(): (r: seq<Line>)
      ensures |r| == |uvlist| + 2
    {
      [L(3, "MODEL_TEXTURE_COORD_LIST {")]
      + seq(|uvlist|, i requires 0 <= i < |uvlist| => Line(4, [F(uvlist[i].u), F(uvlist[i].v), F(0.0), F(0.0)]))
      + [L(3, "}")]
    }

    /** The lines before the texture coordinate face list. */
    function MeshPrefix(): seq<Line>
      requires Built()
    {
      Header() + ShadingDescriptionList() + FacePositionList() + FaceNormalList() + FaceShadingList()
    }

    /**
     * writeMesh: the blocks in order; the two texture blocks only when the
     * mesh has materials. An exception from the face texture list ends the
     * writing there.
     */
    function WriteMesh(): (o: Out)
      requires Built()
    {
      var tex := if HasTX() then FaceTextureCoordList() else Out([], "");
      if tex.err != "" then Out(MeshPrefix() + tex.lines, tex.err)
      else Out(MeshPrefix() + tex.lines + PositionList() + NormalList() + (if HasTX() then TextureCoordList() else []), "")
    }
  }

  /** The position written for a vertex: unchanged, or with axes permuted for media9. */
  function Placed(media9: bool, v: Vec3): Vec3
  {
    if media9 then Media9(v) else v
  }

  /** The media9 transform (x, y, z) to (x, -z, y). */
  function Media9(v: Vec3): (r: Vec3)
    ensures UnMedia9(r) == v
  {
    Vec3(v.x, -v.z, v.y)
  }

  /** The inverse of the media9 transform. */
  function UnMedia9(v: Vec3): (r: Vec3)
  {
    Vec3(v.x, v.z, -v.y)
  }

  function Coords(v: Vec3): seq<Tok>
  {
    [F(v.x), F(v.y), F(v.z)]
  }

  /** What the ModelResource constructor computes for a mesh. */
  function BuildSpec(m: Mesh, media9: bool): (r: Resource)
  {
    var fidv := Partition(m);
    var vidv := Dedup(FaceVerts(m, fidv));
    var uvids := Dedup(FaceUVIds(m, fidv));
    Resource(m, media9, fidv, vidv, IndexMap(vidv), uvids, IndexMap(uvids), UvList(m, MatId(m), uvids))
  }

  // ---------------------------------------------------------------------------
  // The constructor.

  /**
   * The ModelResource constructor: for each exported face, in order, append
   * it to the face list, list its uv ids (when it carries a material) and its
   * corner ids the first time each is met, and record each one's index.
   */
  method Build(m: Mesh, media9: bool) returns (r: Resource)
    requires Dereferenceable(m)
    ensures r == BuildSpec(m, media9)
  {
    var matID := if HasMaterials(m) then m.materialIds[0] else -1;
    var fids := if matID < 0 then m.faces else MaterialFaceIds(m, matID);
    var fidv: seq<int> := [];
    var vidv: seq<int> := [];
    var vmap: map<int, int> := map[];
    var uvids: seq<int> := [];
    var uvmap: map<int, int> := map[];
    var uvlist: seq<Vec2> := [];
    var k := 0;
    while k < |fids|
      invariant k <= |fids|
      invariant fidv == fids[..k]
      invariant vidv == Dedup(FaceVerts(m, fidv)) && vmap == IndexMap(vidv)
      invariant uvids == Dedup(FaceUVIds(m, fidv)) && uvmap == IndexMap(uvids)
      invariant uvlist == UvList(m, matID, uvids)
    {
      var fid := fids[k];
      assert fid in Partition(m);
      vidv, vmap, uvids, uvmap, uvlist := AddFace(m, matID, fidv, fid, vidv, vmap, uvids, uvmap, uvlist);
      fidv := fidv + [fid];
      TakeSnoc(fids, k);
      k := k + 1;
    }
    assert fids[..|fids|] == fids;
    r := Resource(m, media9, fidv, vidv, vmap, uvids, uvmap, uvlist);
  }

  /** The body of the constructor's loop: one more exported face. */
  method AddFace(m: Mesh, matID: int, ghost before: seq<int>, fid: int,
                 vidv: seq<int>, vmap: map<int, int>, uvids: seq<int>, uvmap: map<int, int>, uvlist: seq<Vec2>)
    returns (vidv': seq<int>, vmap': map<int, int>, uvids': seq<int>, uvmap': map<int, int>, uvlist': seq<Vec2>)
    requires fid in m.fvidxs && (FaceMaterialId(m, fid) >= 0 ==> fid in m.faceUVs)
    requires vidv == Dedup(FaceVerts(m, before)) && vmap == IndexMap(vidv)
    requires uvids == Dedup(FaceUVIds(m, before)) && uvmap == IndexMap(uvids) && uvlist == UvList(m, matID, uvids)
    ensures vidv' == Dedup(FaceVerts(m, before + [fid])) && vmap' == IndexMap(vidv')
    ensures uvids' == Dedup(FaceUVIds(m, before + [fid])) && uvmap' == IndexMap(uvids') && uvlist' == UvList(m, matID, uvids')
  {
    BuildStep(m, before, fid);
    uvids', uvmap', uvlist' := uvids, uvmap, uvlist;
    if FaceMaterialId(m, fid) >= 0 {
      uvids', uvmap', uvlist' := AddUvs(m, matID, FaceUVIds(m, before), m.faceUVs[fid], uvids, uvmap, uvlist);
    } else {
      assert FaceUVIds(m, before + [fid]) == FaceUVIds(m, before);
    }
    vidv', vmap' := AddVertices(FaceVerts(m, before), m.fvidxs[fid], vidv, vmap);
  }

  /** How one more face extends the referenced ids. */
  lemma BuildStep(m: Mesh, before: seq<int>, fid: int)
    ensures FaceVerts(m, before + [fid]) == FaceVerts(m, before) + Corners3(Corners(m, fid))
    ensures FaceUVIds(m, before + [fid]) ==
      FaceUVIds(m, before) + (if FaceMaterialId(m, fid) >= 0 && fid in m.faceUVs then Corners3(m.faceUVs[fid]) else [])
  {
    assert (before + [fid])[..|before|] == before;
  }

  /** The loop over a face's three uv ids in the constructor. */
  method AddUvs(m: Mesh, matID: int, ghost seen: seq<int>, t: Tri, uvids: seq<int>, uvmap: map<int, int>, uvlist: seq<Vec2>)
    returns (uvids': seq<int>, uvmap': map<int, int>, uvlist': seq<Vec2>)
    requires uvids == Dedup(seen) && uvmap == IndexMap(uvids) && uvlist == UvList(m, matID, uvids)
    ensures uvids' == Dedup(seen + Corners3(t)) && uvmap' == IndexMap(uvids') && uvlist' == UvList(m, matID, uvids')
  {
    uvids', uvmap', uvlist' := uvids, uvmap, uvlist;
    ghost var met := seen;
    CornersTake(t);
    for i := 0 to 3
      invariant met == seen + Corners3(t)[..i]
      invariant uvids' == Dedup(met) && uvmap' == IndexMap(uvids') && uvlist' == UvList(m, matID, uvids')
    {
      var key := t.At(i);
      uvids', uvmap', uvlist' := AddUv(m, matID, met, key, uvids', uvmap', uvlist');
      TakeSnoc(Corners3(t), i);
      met := met + [key];
    }
  }

  /** A face's corners, none taken and all three taken. */
  lemma CornersTake(t: Tri)
    ensures Corners3(t)[..0] == [] && Corners3(t)[..3] == Corners3(t)
  {
  }

  /** The body of that loop: a uv id not yet listed is listed, with its coordinate. */
  method AddUv(m: Mesh, matID: int, ghost met: seq<int>, key: int, uvids: seq<int>, uvmap: map<int, int>, uvlist: seq<Vec2>)
    returns (uvids': seq<int>, uvmap': map<int, int>, uvlist': seq<Vec2>)
    requires uvids == Dedup(met) && uvmap == IndexMap(uvids) && uvlist == UvList(m, matID, uvids)
    ensures uvids' == Dedup(met + [key]) && uvmap' == IndexMap(uvids') && uvlist' == UvList(m, matID, uvids')
  {
    DedupSnoc(met, key);
    uvids', uvmap', uvlist' := uvids, uvmap, uvlist;
    if key !in uvmap {
      IndexMapSnoc(uvids, key);
      UvListSnoc(m, matID, uvids, key);
      uvmap' := uvmap[key := |uvlist|];
      uvlist' := uvlist + [Uv(m, matID, key)];
      uvids' := uvids + [key];
    }
  }

  lemma UvListSnoc(m: Mesh, mid: int, ids: seq<int>, x: int)
    ensures UvList(m, mid, ids + [x]) == UvList(m, mid, ids) + [Uv(m, mid, x)]
  {
    assert (ids + [x])[..|ids|] == ids;
  }

  /** The loop over a face's three corner ids in the constructor. */
  method AddVertices(ghost seen: seq<int>, t: Tri, vidv: seq<int>, vmap: map<int, int>) returns (vidv': seq<int>, vmap': map<int, int>)
    requires vidv == Dedup(seen) && vmap == IndexMap(vidv)
    ensures vidv' == Dedup(seen + Corners3(t)) && vmap' == IndexMap(vidv')
  {
    vidv', vmap' := vidv, vmap;
    ghost var met := seen;
    CornersTake(t);
    for i := 0 to 3
      invariant met == seen + Corners3(t)[..i]
      invariant vidv' == Dedup(met) && vmap' == IndexMap(vidv')
    {
      var vid := t.At(i);
      TakeSnoc(Corners3(t), i);
      vidv', vmap' := AddVertex(met, vid, vidv', vmap');
      met := met + [vid];
    }
  }

  /** The body of that loop: a vertex id not yet listed is listed. */
  method AddVertex(ghost met: seq<int>, vid: int, vidv: seq<int>, vmap: map<int, int>) returns (vidv': seq<int>, vmap': map<int, int>)
    requires vidv == Dedup(met) && vmap == IndexMap(vidv)
    ensures vidv' == Dedup(met + [vid]) && vmap' == IndexMap(vidv')
  {
    DedupSnoc(met, vid);
    vidv', vmap' := vidv, vmap;
    if vid !in vmap {
      IndexMapSnoc(vidv, vid);
      vmap' := vmap[vid := |vidv|];
      vidv' := vidv + [vid];
    }
  }

  // ---------------------------------------------------------------------------
  // Properties of the model resource.

  /** Every corner of every listed face is among the ids. */
  lemma {:induction false} FaceVertsHas(m: Mesh, fids: seq<int>)
    ensures forall f, k :: f in fids && 0 <= k < 3 ==> Corners(m, f).At(k) in FaceVerts(m, fids)
  {
    if fids != [] {
      var init := fids[..|fids| - 1];
      FaceVertsHas(m, init);
      assert fids == init + [fids[|fids| - 1]];
    }
  }

  /** Every id listed comes from a corner of a listed face. */
  lemma {:induction false} FaceVertsFrom(m: Mesh, fids: seq<int>)
    ensures forall x :: x in FaceVerts(m, fids) ==> exists f, k :: f in fids && 0 <= k < 3 && Corners(m, f).At(k) == x
  {
    if fids != [] {
      var init := fids[..|fids| - 1];
      FaceVertsFrom(m, init);
      assert fids == init + [fids[|fids| - 1]];
      forall x | x in FaceVerts(m, fids)
        ensures exists f, k :: f in fids && 0 <= k < 3 && Corners(m, f).At(k) == x
      {
        if x in FaceVerts(m, init) {
          var f, k :| f in init && 0 <= k < 3 && Corners(m, f).At(k) == x;
          assert f in fids;
        } else {
          var t := Corners(m, fids[|fids| - 1]);
          assert x in Corners3(t);
        }
      }
    }
  }

  /** The uv ids collected are exactly the uv ids of the listed faces that carry a material. */
  lemma {:induction false} FaceUVIdsExactly(m: Mesh, fids: seq<int>)
    ensures forall x :: x in FaceUVIds(m, fids) <==>
      exists f, k :: f in fids && FaceMaterialId(m, f) >= 0 && f in m.faceUVs && 0 <= k < 3 && m.faceUVs[f].At(k) == x
  {
    if fids != [] {
      var init, g := fids[..|fids| - 1], fids[|fids| - 1];
      FaceUVIdsExactly(m, init);
      assert fids == init + [g];
      forall x
        ensures x in FaceUVIds(m, fids) <==>
          exists f, k :: f in fids && FaceMaterialId(m, f) >= 0 && f in m.faceUVs && 0 <= k < 3 && m.faceUVs[f].At(k) == x
      {
        if x in FaceUVIds(m, fids) {
          if x in FaceUVIds(m, init) {
            var f, k :| f in init && FaceMaterialId(m, f) >= 0 && f in m.faceUVs && 0 <= k < 3 && m.faceUVs[f].At(k) == x;
            assert f in fids;
          } else {
            assert FaceMaterialId(m, g) >= 0 && g in m.faceUVs && x in Corners3(m.faceUVs[g]);
          }
        }
        if exists f, k :: f in fids && FaceMaterialId(m, f) >= 0 && f in m.faceUVs && 0 <= k < 3 && m.faceUVs[f].At(k) == x {
          var f, k :| f in fids && FaceMaterialId(m, f) >= 0 && f in m.faceUVs && 0 <= k < 3 && m.faceUVs[f].At(k) == x;
          if f != g {
            assert f in init;
          } else {
            assert Corners3(m.faceUVs[g])[k] == x;
          }
        }
      }
    }
  }

  /** Every corner of an exported face has an entry in the vertex table. */
  lemma CornersIndexed(r: Resource)
    requires r.Built()
    ensures forall f :: f in r.fidv ==> Corners(r.mesh, f).a in r.vmap && Corners(r.mesh, f).b in r.vmap && Corners(r.mesh, f).c in r.vmap
  {
    FaceVertsHas(r.mesh, r.fidv);
    DedupElements(FaceVerts(r.mesh, r.fidv));
    forall f | f in r.fidv
      ensures Corners(r.mesh, f).a in r.vmap && Corners(r.mesh, f).b in r.vmap && Corners(r.mesh, f).c in r.vmap
    {
      assert Corners(r.mesh, f).At(0) in FaceVerts(r.mesh, r.fidv);
      assert Corners(r.mesh, f).At(1) in FaceVerts(r.mesh, r.fidv);
      assert Corners(r.mesh, f).At(2) in FaceVerts(r.mesh, r.fidv);
    }
  }

  /** The vertex list lists each corner id of the exported faces once, and the table sends each to its position. */
  lemma VertexTable(r: Resource)
    requires r.Built()
    ensures Distinct(r.vidv)
    ensures forall x :: x in r.vidv <==> x in FaceVerts(r.mesh, r.fidv)
    ensures forall i :: 0 <= i < |r.vidv| ==> r.vmap[r.vidv[i]] == i
    ensures forall x :: x in r.vmap ==> 0 <= r.vmap[x] < |r.vidv| && r.vidv[r.vmap[x]] == x
  {
    DedupDistinct(FaceVerts(r.mesh, r.fidv));
    DedupElements(FaceVerts(r.mesh, r.fidv));
    IndexMapPositions(r.vidv);
    IndexMapInverse(r.vidv);
  }

  /**
   * The uv list lists each uv id of the exported faces that carry a material
   * once, the table sends each to its position, and the texture coordinates
   * listed are the exported material's for those ids.
   */
  lemma UvTable(r: Resource)
    requires r.Built()
    ensures Distinct(r.uvids)
    ensures forall x :: x in r.uvids <==> x in FaceUVIds(r.mesh, r.fidv)
    ensures forall i :: 0 <= i < |r.uvids| ==> r.uvmap[r.uvids[i]] == i
    ensures forall x :: x in r.uvmap ==> 0 <= r.uvmap[x] < |r.uvids| && r.uvids[r.uvmap[x]] == x
    ensures forall i :: 0 <= i < |r.uvlist| ==> r.uvlist[i] == Uv(r.mesh, MatId(r.mesh), r.uvids[i])
  {
    DedupDistinct(FaceUVIds(r.mesh, r.fidv));
    DedupElements(FaceUVIds(r.mesh, r.fidv));
    IndexMapPositions(r.uvids);
    IndexMapInverse(r.uvids);
    UvListAt(r.mesh, MatId(r.mesh), r.uvids);
  }

  /** Each table has one entry per listed id, and one texture coordinate is listed per uv id. */
  lemma TableSizes(r: Resource)
    requires r.Built()
    ensures |r.vmap| == |r.vidv| && |r.uvmap| == |r.uvids| == |r.uvlist|
  {
    DedupDistinct(FaceVerts(r.mesh, r.fidv));
    DedupDistinct(FaceUVIds(r.mesh, r.fidv));
    IndexMapSize(r.vidv);
    IndexMapSize(r.uvids);
  }

  lemma {:induction false} UvListAt(m: Mesh, mid: int, ids: seq<int>)
    ensures forall i :: 0 <= i < |ids| ==> UvList(m, mid, ids)[i] == Uv(m, mid, ids[i])
  {
    if ids != [] {
      UvListAt(m, mid, ids[..|ids| - 1]);
    }
  }

  /**
   * The exported faces: every face when the mesh has no material; otherwise
   * exactly the faces that carry the first material, so faces without a
   * material are left out. Each is listed once.
   */
  lemma PartitionFaces(m: Mesh)
    requires Valid(m)
    ensures !HasMaterials(m) ==> Partition(m) == m.faces
    ensures HasMaterials(m) ==> MatId(m) >= 0 && forall f :: f in Partition(m) <==> f in m.faces && FaceMaterialId(m, f) == MatId(m)
    ensures Distinct(Partition(m))
  {
    if HasMaterials(m) {
      assert MatId(m) in m.materialIds;
      forall f | f in m.faces && FaceMaterialId(m, f) == MatId(m)
        ensures f in Partition(m)
      {
      }
    }
  }

  /** A valid mesh has every triple the constructor dereferences. */
  lemma ValidDereferenceable(m: Mesh)
    requires Valid(m)
    ensures Dereferenceable(m)
  {
    PartitionFaces(m);
  }

  // ---------------------------------------------------------------------------
  // Properties of the MESH block.

  /**
   * The header counts are the lengths of the lists written after them:
   * FACE_COUNT is the number of entries of the face position, normal-index
   * and shading lists.
   */
  lemma FaceCounts(r: Resource)
    requires r.Built()
    ensures r.Header()[0] == Line(3, [W("FACE_COUNT"), I(|r.FacePositionList()| - 2)])
    ensures |r.FaceNormalList()| == |r.FaceShadingList()| == |r.FacePositionList()|
  {
  }

  /** MODEL_POSITION_COUNT is the number of entries of the position list. */
  lemma PositionCount(r: Resource)
    ensures r.Header()[1] == Line(3, [W("MODEL_POSITION_COUNT"), I(|r.PositionList()| - 2)])
  {
  }

  /** MODEL_NORMAL_COUNT is the number of entries of the normal list. */
  lemma NormalCount(r: Resource)
    ensures r.Header()[2] == Line(3, [W("MODEL_NORMAL_COUNT"), I(|r.NormalList()| - 2)])
  {
  }

  /** MODEL_TEXTURE_COORD_COUNT, the size of the uv table, is the number of entries of the texture coordinate list. */
  lemma TextureCount(r: Resource)
    requires r.Built()
    ensures r.Header()[5] == Line(3, [W("MODEL_TEXTURE_COORD_COUNT"), I(|r.TextureCoordList()| - 2)])
  {
    TableSizes(r);
  }

  /**
   * Winding is kept: the k-th index written for face j points at the
   * position-list entry of that face's k-th corner.
   */
  lemma Winding(r: Resource)
    requires r.Built()
    ensures forall j :: 0 <= j < |r.fidv| ==> IndexesCorners(r.vidv, r.FacePositionList()[j + 1], Corners(r.mesh, r.fidv[j]))
  {
    forall j | 0 <= j < |r.fidv|
      ensures IndexesCorners(r.vidv, r.FacePositionList()[j + 1], Corners(r.mesh, r.fidv[j]))
    {
      WindingAt(r, j);
    }
  }

  lemma WindingAt(r: Resource, j: nat)
    requires r.Built() && j < |r.fidv|
    ensures IndexesCorners(r.vidv, r.FacePositionList()[j + 1], Corners(r.mesh, r.fidv[j]))
  {
    VertexTable(r);
    CornersIndexed(r);
    var t := Corners(r.mesh, r.fidv[j]);
    assert r.fidv[j] in r.fidv;
    assert r.FacePositionList()[j + 1] == r.PositionIndices(t);
    WindingFace(r, t);
  }

  /** A position-index line names, for each corner k of t, a position-list entry holding t's k-th vertex id. */
  ghost predicate IndexesCorners(vidv: seq<int>, line: Line, t: Tri)
  {
    |line.toks| == 3 && forall k :: 0 <= k < 3 ==>
      line.toks[k].I? && 0 <= line.toks[k].n < |vidv| && vidv[line.toks[k].n] == t.At(k)
  }

  /** The indices written for one face point at the position-list entries of its corners. */
  lemma WindingFace(r: Resource, t: Tri)
    requires t.a in r.vmap && t.b in r.vmap && t.c in r.vmap
    requires forall x :: x in r.vmap ==> 0 <= r.vmap[x] < |r.vidv| && r.vidv[r.vmap[x]] == x
    ensures IndexesCorners(r.vidv, r.PositionIndices(t), t)
  {
  }

  /**
   * Normal indices: face j names normals 3j, 3j+1 and 3j+2, so the n faces
   * together name each of the 3n normals exactly once.
   */
  lemma NormalIndices(r: Resource, n: nat)
    ensures forall x :: 0 <= x < 3 * n ==> r.NormalTriples(0, n)[x / 3].toks[x % 3] == I(x)
  {
    forall x | 0 <= x < 3 * n
      ensures r.NormalTriples(0, n)[x / 3].toks[x % 3] == I(x)
    {
      NormalAt(r, n, x);
    }
  }

  lemma NormalAt(r: Resource, n: nat, x: nat)
    requires x < 3 * n
    ensures x / 3 < n && r.NormalTriples(0, n)[x / 3].toks[x % 3] == I(x)
  {
    var j, k := x / 3, x % 3;
    assert x == 3 * j + k && 0 <= k < 3;
    var line := r.NormalTriples(0, n)[j];
    assert line.toks == [I(3 * j), I(3 * j + 1), I(3 * j + 2)];
    if k == 0 {
      assert line.toks[k] == I(x);
    } else if k == 1 {
      assert line.toks[k] == I(x);
    } else {
      assert line.toks[k] == I(x);
    }
  }

  /**
   * The position list holds exactly the vertices of the exported faces, each
   * once: every corner vertex v has its position, as stored or through the
   * media9 permutation, on the line of its index vmap[v], and every line
   * between the braces belongs to such a vertex.
   */
  lemma PositionsWritten(r: Resource)
    requires r.Built()
    ensures |r.PositionList()| == |r.vidv| + 2 && Distinct(r.vidv)
    ensures forall v :: v in FaceVerts(r.mesh, r.fidv) ==>
      v in r.vmap && 0 <= r.vmap[v] < |r.vidv| &&
      r.PositionList()[r.vmap[v] + 1] == Line(4, Coords(Placed(r.media9, Vtx(r.mesh, v))))
    ensures forall i :: 0 <= i < |r.vidv| ==> r.vidv[i] in FaceVerts(r.mesh, r.fidv) && r.vmap[r.vidv[i]] == i
  {
    VertexTable(r);
    PositionListAt(r);
  }

  lemma PositionListAt(r: Resource)
    ensures forall i :: 0 <= i < |r.vidv| ==> r.PositionList()[i + 1] == Line(4, Coords(Placed(r.media9, Vtx(r.mesh, r.vidv[i]))))
  {
  }

  /**
   * Reading a face back: the k-th position index written for face j leads
   * to the line holding the position of that face's k-th corner.
   */
  lemma FaceCornersPlaced(r: Resource, j: nat, k: nat)
    requires r.Built() && j < |r.fidv| && k < 3
    ensures var idx := r.FacePositionList()[j + 1].toks[k];
      idx.I? && 0 <= idx.n < |r.vidv| &&
      r.PositionList()[idx.n + 1] == Line(4, Coords(Placed(r.media9, Vtx(r.mesh, Corners(r.mesh, r.fidv[j]).At(k)))))
  {
    WindingAt(r, j);
    var line := r.FacePositionList()[j + 1];
    assert line.toks[k].I? && 0 <= line.toks[k].n < |r.vidv|;
    assert r.vidv[line.toks[k].n] == Corners(r.mesh, r.fidv[j]).At(k);
    PositionListAt(r);
  }

  /** Each texture coordinate is written as its u and v padded with two zeros. */
  lemma TextureCoordsPadded(r: Resource)
    requires r.Built()
    ensures forall i :: 0 <= i < |r.uvids| ==>
      var uv := Uv(r.mesh, MatId(r.mesh), r.uvids[i]);
      r.TextureCoordList()[i + 1] == Line(4, [F(uv.u), F(uv.v), F(0.0), F(0.0)])
  {
    TableSizes(r);
    UvListAt(r.mesh, MatId(r.mesh), r.uvids);
    forall i | 0 <= i < |r.uvids|
      ensures r.TextureCoordList()[i + 1] == Line(4, [F(r.uvlist[i].u), F(r.uvlist[i].v), F(0.0), F(0.0)])
    {
    }
  }

  /** The face texture list writes no error when every exported face from i on has its uv ids listed. */
  lemma {:induction false} FaceTextureCoordsComplete(r: Resource, i: nat)
    requires i <= |r.fidv|
    requires forall f :: f in r.fidv[i..] ==> f in r.mesh.faceUVs && r.mesh.faceUVs[f].a in r.uvmap && r.mesh.faceUVs[f].b in r.uvmap && r.mesh.faceUVs[f].c in r.uvmap
    ensures r.FaceTextureCoords(i).err == ""
    ensures |r.FaceTextureCoords(i).lines| == 3 * (|r.fidv| - i)
    decreases |r.fidv| - i
  {
    if i < |r.fidv| {
      assert r.fidv[i] in r.fidv[i..];
      assert forall f :: f in r.fidv[i + 1..] ==> f in r.fidv[i..];
      FaceTextureCoordsComplete(r, i + 1);
    }
  }

  /** Whatever stops the writing of the face texture list is a failed uv table lookup. */
  lemma {:induction false} FaceTextureCoordsError(r: Resource, i: nat)
    requires i <= |r.fidv|
    ensures r.FaceTextureCoords(i).err in {"", MAP_AT}
    decreases |r.fidv| - i
  {
    if i < |r.fidv| {
      FaceTextureCoordsError(r, i + 1);
    }
  }

  /**
   * For a valid mesh the MESH block is written whole: every exported face of
   * a textured mesh carries the exported material, so its uv ids were listed.
   */
  lemma WriteMeshComplete(r: Resource)
    requires r.Built() && Valid(r.mesh)
    ensures r.WriteMesh().err == ""
  {
    if r.HasTX() {
      TexturedFacesListed(r);
      FaceTextureCoordsComplete(r, 0);
    }
  }

  /** For a valid textured mesh every exported face has its three uv ids in the table. */
  lemma TexturedFacesListed(r: Resource)
    requires r.Built() && Valid(r.mesh) && r.HasTX()
    ensures forall f :: f in r.fidv[0..] ==>
      f in r.mesh.faceUVs && r.mesh.faceUVs[f].a in r.uvmap && r.mesh.faceUVs[f].b in r.uvmap && r.mesh.faceUVs[f].c in r.uvmap
  {
    forall f | f in r.fidv[0..]
      ensures f in r.mesh.faceUVs && r.mesh.faceUVs[f].a in r.uvmap && r.mesh.faceUVs[f].b in r.uvmap && r.mesh.faceUVs[f].c in r.uvmap
    {
      assert f in r.fidv;
      FaceUvsListed(r, f);
    }
  }

  /** An exported face of a valid textured mesh has a uv triple, and its three uv ids are in the table. */
  lemma FaceUvsListed(r: Resource, f: int)
    requires r.Built() && Valid(r.mesh) && r.HasTX() && f in r.fidv
    ensures f in r.mesh.faceUVs && r.mesh.faceUVs[f].a in r.uvmap && r.mesh.faceUVs[f].b in r.uvmap && r.mesh.faceUVs[f].c in r.uvmap
  {
    PartitionFaces(r.mesh);
    assert FaceMaterialId(r.mesh, f) >= 0 && f in r.mesh.faceUVs;
    FaceUVIdsExactly(r.mesh, r.fidv);
    DedupElements(FaceUVIds(r.mesh, r.fidv));
    var t := r.mesh.faceUVs[f];
    assert t.At(0) == t.a && t.At(1) == t.b && t.At(2) == t.c;
  }

  /**
   * The texture blocks: a mesh without materials gets neither texture list;
   * one with materials gets the face texture list right after the face
   * shading list.
   */
  lemma TextureBlocks(r: Resource)
    requires r.Built()
    ensures !r.HasTX() ==> r.WriteMesh() == Out(r.MeshPrefix() + r.PositionList() + r.NormalList(), "")
    ensures r.HasTX() ==> r.WriteMesh().lines[|r.MeshPrefix()|] == L(3, "MESH_FACE_TEXTURE_COORD_LIST {")
    ensures r.HasTX() && r.WriteMesh().err == "" ==>
      r.WriteMesh().lines[|r.WriteMesh().lines| - |r.TextureCoordList()|..] == r.TextureCoordList()
  {
    if !r.HasTX() {
      assert r.MeshPrefix() + [] == r.MeshPrefix();
      assert r.MeshPrefix() + r.PositionList() + r.NormalList() + [] == r.MeshPrefix() + r.PositionList() + r.NormalList();
    }
  }

  // ---------------------------------------------------------------------------
  // The fixed blocks and the file.

  /** The identity PARENT_TM matrix of a node's only parent. */
  function ParentList(parent: string): seq<Line>
  {
    [ L(1, "PARENT_LIST {"),
      L(2, "PARENT_COUNT 1"),
      L(2, "PARENT 0 {"),
      L(3, "PARENT_NAME \"" + parent + "\""),
      L(3, "PARENT_TM {"),
      L(4, "1.0 0.0 0.0 0.0"),
      L(4, "0.0 1.0 0.0 0.0"),
      L(4, "0.0 0.0 1.0 0.0"),
      L(4, "0.0 0.0 0.0 1.0"),
      L(3, "}"),
      L(2, "}"),
      L(1, "}") ]
  }

  /** nodeGroup: the group node at the root of the scene. */
  function NodeGroup(): seq<Line>
  {
    [L(0, "NODE \"GROUP\" {"), L(1, "NODE_NAME \"ModelGroup\"")] + ParentList("<NULL>") + [L(0, "}"), Blank]
  }

  /** nodeModel: the model node, a child of the group, showing resource Mesh0. */
  function NodeModel(): seq<Line>
  {
    [L(0, "NODE \"MODEL\" {"), L(1, "NODE_NAME \"Mesh0\"")] + ParentList("ModelGroup")
      + [L(1, "RESOURCE_NAME \"Mesh0\""), L(0, "}"), Blank]
  }

  /** resourceListShader: shader Shader0 of material Material0, with texture layer Texture0 iff hasTX. */
  function ResourceListShader(hasTX: bool): seq<Line>
  {
    [ L(0, "RESOURCE_LIST \"SHADER\" {"),
      L(1, "RESOURCE_COUNT 1"),
      L(1, "RESOURCE 0 {"),
      L(2, "RESOURCE_NAME \"Shader0\""),
      L(2, "SHADER_MATERIAL_NAME \"Material0\""),
      Line(2, [W("SHADER_ACTIVE_TEXTURE_COUNT"), I(if hasTX then 1 else 0)]) ]
    + (if hasTX then
         [L(2, "SHADER_TEXTURE_LAYER_LIST {"), L(3, "TEXTURE_LAYER 0 {"), L(4, "TEXTURE_NAME \"Texture0\""), L(3, "}"), L(2, "}")]
       else [])
    + [L(1, "}"), L(0, "}"), Blank]
  }

  /** resourceListMaterial: Material0 with the given emissive colour. */
  function ResourceListMaterial(ems: Colour): seq<Line>
  {
    [ L(0, "RESOURCE_LIST \"MATERIAL\" {"),
      L(1, "RESOURCE_COUNT 1"),
      L(1, "RESOURCE 0 {"),
      L(2, "RESOURCE_NAME \"Material0\""),
      L(2, "MATERIAL_AMBIENT 0.0 0.0 0.0 0.0"),
      L(2, "MATERIAL_DIFFUSE 0.4 0.4 0.4 0.4"),
      L(2, "MATERIAL_SPECULAR 0.0 0.0 0.0 0.0"),
      Line(2, [W("MATERIAL_EMISSIVE"), F(ems.r), F(ems.g), F(ems.b), W("1.0")]),
      L(2, "MATERIAL_REFLECTIVITY 0.0"),
      L(2, "MATERIAL_OPACITY 1.0"),
      L(1, "}"),
      L(0, "}"),
      Blank ]
  }

  /** resourceListTexture: Texture0, read from the given file. */
  function ResourceListTexture(tgafname: string): seq<Line>
  {
    [ L(0, "RESOURCE_LIST \"TEXTURE\" {"),
      L(1, "RESOURCE_COUNT 1"),
      L(1, "RESOURCE 0 {"),
      L(2, "RESOURCE_NAME \"Texture0\""),
      L(2, "TEXTURE_PATH \"" + tgafname + "\""),
      L(1, "}"),
      L(0, "}"),
      Blank ]
  }

  /** modifierShading: Mesh0 is shaded by Shader0; no blank line follows. */
  function ModifierShading(): seq<Line>
  {
    [ L(0, "MODIFIER \"SHADING\" {"),
      L(1, "MODIFIER_NAME \"Mesh0\""),
      L(1, "PARAMETERS {"),
      L(2, "SHADER_LIST_COUNT 1"),
      L(2, "SHADING_GROUP {"),
      L(3, "SHADER_LIST 0 {"),
      L(4, "SHADER_COUNT 1"),
      L(4, "SHADER_NAME_LIST {"),
      L(5, "SHADER 0 NAME: \"Shader0\""),
      L(4, "}"),
      L(3, "}"),
      L(2, "}"),
      L(1, "}"),
      L(0, "}") ]
  }

  /** Everything _writeFile writes before the MESH block's contents. */
  function FileHead(): seq<Line>
  {
    [L(0, "FILE_FORMAT \"IDTF\""), L(0, "FORMAT_VERSION 100"), Blank]
    + NodeGroup() + NodeModel()
    + [ L(0, "RESOURCE_LIST \"MODEL\" {"),
        L(1, "RESOURCE_COUNT 1"),
        L(1, "RESOURCE 0 {"),
        L(2, "RESOURCE_NAME \"Mesh0\""),
        L(2, "MODEL_TYPE \"MESH\""),
        L(2, "MESH {") ]
  }

  /** Everything _writeFile writes after the MESH block's contents, when nothing was thrown. */
  function FileTail(ems: Colour, tgafname: string): seq<Line>
  {
    [L(2, "}"), L(1, "}"), L(0, "}"), Blank]
    + ResourceListShader(tgafname != "")
    + ResourceListMaterial(ems)
    + (if tgafname != "" then ResourceListTexture(tgafname) else [])
    + ModifierShading()
  }

  /**
   * _writeFile: the lines written and the text of the exception caught
   * ("" when none was). The model resource is built and written inside the
   * try block, so an exception leaves the file cut off inside the MESH block.
   */
  function WriteFile(m: Mesh, media9: bool, ems: Colour, tgafname: string): (o: Out)
  {
    var w := BuildSpec(m, media9).WriteMesh();
    if w.err != "" then Out(FileHead() + w.lines, w.err)
    else Out(FileHead() + w.lines + FileTail(ems, tgafname), "")
  }

  /** The only exception _writeFile can catch is the failed uv lookup. */
  lemma WriteFileError(m: Mesh, media9: bool, ems: Colour, tgafname: string)
    ensures WriteFile(m, media9, ems, tgafname).err in {"", MAP_AT}
  {
    var r := BuildSpec(m, media9);
    if r.HasTX() {
      FaceTextureCoordsError(r, 0);
    }
  }

  /** For a valid mesh _writeFile reports no error and writes every block. */
  lemma WriteFileComplete(m: Mesh, media9: bool, ems: Colour, tgafname: string)
    requires Valid(m)
    ensures var o := WriteFile(m, media9, ems, tgafname);
      && o.err == ""
      && o.lines == FileHead() + BuildSpec(m, media9).WriteMesh().lines + FileTail(ems, tgafname)
  {
    WriteMeshComplete(BuildSpec(m, media9));
  }

  const TextureName := L(4, "TEXTURE_NAME \"Texture0\"")
  const TextureResource := L(2, "RESOURCE_NAME \"Texture0\"")

  /** The shader of the file names texture Texture0, and counts one active texture, iff a TGA file was given. */
  lemma TailNamesTexture(ems: Colour, tgafname: string)
    ensures TextureName in FileTail(ems, tgafname) <==> tgafname != ""
    ensures Line(2, [W("SHADER_ACTIVE_TEXTURE_COUNT"), I(if tgafname != "" then 1 else 0)]) in FileTail(ems, tgafname)
  {
    var hasTX := tgafname != "";
    var shader := ResourceListShader(hasTX);
    assert shader[5] in shader;
    OtherBlocks(ems);
    ShaderTextures(hasTX);
    if hasTX {
      TextureBlock(tgafname);
    }
  }

  /** The file declares texture Texture0, read from the given TGA file, iff one was given. */
  lemma TailDeclaresTexture(ems: Colour, tgafname: string)
    ensures TextureResource in FileTail(ems, tgafname) <==> tgafname != ""
    ensures tgafname != "" ==> L(2, "TEXTURE_PATH \"" + tgafname + "\"") in FileTail(ems, tgafname)
  {
    OtherBlocks(ems);
    ShaderTextures(tgafname != "");
    if tgafname != "" {
      TextureBlock(tgafname);
    }
  }

  /** The texture resource list declares Texture0 with its path, and names no texture layer. */
  lemma TextureBlock(tgafname: string)
    ensures TextureResource in ResourceListTexture(tgafname)
    ensures L(2, "TEXTURE_PATH \"" + tgafname + "\"") in ResourceListTexture(tgafname)
    ensures TextureName !in ResourceListTexture(tgafname)
  {
    var texture := ResourceListTexture(tgafname);
    assert texture[3] == TextureResource;
    assert texture[4] == L(2, "TEXTURE_PATH \"" + tgafname + "\"");
    assert forall i :: 0 <= i < |texture| ==> texture[i].indent < 4;
  }

  /** Neither texture line occurs in the material, modifier or closing lines. */
  lemma OtherBlocks(ems: Colour)
    ensures TextureName !in ResourceListMaterial(ems) && TextureResource !in ResourceListMaterial(ems)
    ensures TextureName !in ModifierShading() && TextureResource !in ModifierShading()
    ensures TextureName !in [L(2, "}"), L(1, "}"), L(0, "}"), Blank] && TextureResource !in [L(2, "}"), L(1, "}"), L(0, "}"), Blank]
  {
    MaterialNoTexture(ems);
    ModifierNoTexture();
  }

  lemma MaterialNoTexture(ems: Colour)
    ensures TextureName !in ResourceListMaterial(ems) && TextureResource !in ResourceListMaterial(ems)
  {
    var material := ResourceListMaterial(ems);
    forall i | 0 <= i < |material|
      ensures material[i].indent < 4 && material[i] != TextureResource
    {
    }
  }

  lemma ModifierNoTexture()
    ensures TextureName !in ModifierShading() && TextureResource !in ModifierShading()
  {
    var modifier := ModifierShading();
    assert forall i :: 0 <= i < |modifier| ==> modifier[i] != TextureName && modifier[i] != TextureResource;
  }

  /** The shader lists texture Texture0 iff it has a texture, and never declares it. */
  lemma ShaderTextures(hasTX: bool)
    ensures TextureName in ResourceListShader(hasTX) <==> hasTX
    ensures TextureResource !in ResourceListShader(hasTX)
  {
    var shader := ResourceListShader(hasTX);
    if hasTX {
      assert shader[8] == TextureName;
    } else {
      assert forall i :: 0 <= i < |shader| ==> shader[i].indent < 4;
    }
    assert forall i :: 0 <= i < |shader| ==> shader[i] != TextureResource;
  }

  // ---------------------------------------------------------------------------
  // The exporter object.

  const NO_TEXTURE := "[ERROR] r3dio::IDTFExporter::doSave: Material has no texture!"
  const WRITE_FAILED := "Unable to write IDTF text file: "
  const IDTF_DESC := "Intermediate Data Text Format"

  /** The mesh doSave exports: the input itself, or a merged copy of it when it has several materials. */
  function Exported(inMesh: Mesh, merged: Mesh): Mesh
  {
    if NumMats(inMesh) <= 1 then inMesh else merged
  }

  /** The texture of the first material. */
  function FirstTexture(m: Mesh): Image
    requires HasMaterials(m)
  {
    Texture(m, m.materialIds[0])
  }

  /** The texture file: the save name's stem, in the save name's directory, with "_M0.tga" appended. */
  function TgaName(filename: string): string
  {
    Join(ParentPath(filename), Stem(filename)) + "_M0" + "." + "tga"
  }

  /** What saveTGA needs of the texture: a well-formed matrix whose sides fit the header's short fields. */
  predicate TextureFits(m: Mesh)
  {
    HasMaterials(m) ==> WellFormed(FirstTexture(m)) && FirstTexture(m).rows < 32768 && FirstTexture(m).cols < 32768
  }

  /** saveTGA of the texture succeeds. */
  predicate TgaSaved(tx: Image, dev: TgaImage.Device)
  {
    TgaImage.Saveable(tx) && dev.opens && 18 + TgaImage.PixelBytes(tx) <= dev.capacity
  }

  /**
   * The outcome of doSave after _reset: the result, the error it sets (None
   * when it leaves the error alone), the files it records for deletion, the
   * files it creates, the bytes of the TGA file and the lines of the IDTF file.
   */
  datatype Saved = Saved(
    ok: bool,
    err: Option<string>,
    idtffile: string,
    tgafiles: seq<string>,
    created: set<string>,
    tga: seq<byte>,
    text: seq<Line>)

  /** The name of the texture file doSave passes to _writeFile: none when the exported mesh has no material. */
  function TgaFor(m: Mesh, filename: string): string
  {
    if HasMaterials(m) then TgaName(filename) else ""
  }

  /**
   * doSave after _reset. `merged` is what mergeMaterials makes of a deep copy
   * of the input, `dev` is the device the TGA file is written to, `opens`
   * says whether the IDTF file can be opened (one that cannot be opened is
   * written to nowhere, without any error), and `o` is what _writeFile
   * returns for the exported mesh and TgaFor's name.
   */
  function SaveSpec(inMesh: Mesh, merged: Mesh, filename: string, dev: TgaImage.Device, opens: bool, o: Out): (s: Saved)
    requires TextureFits(Exported(inMesh, merged))
  {
    var m := Exported(inMesh, merged);
    if HasMaterials(m) then
      var tx := FirstTexture(m);
      if Empty(tx) then Saved(false, Some(NO_TEXTURE), "", [], {}, [], [])
      else
        var tga := TgaName(filename);
        var wrote := TgaImage.Saveable(tx) && dev.opens;
        var bytes := if wrote then TgaImage.Prefix(TgaImage.TgaBytes(tx), dev.capacity) else [];
        var created := if wrote then {tga} else {};
        if !TgaSaved(tx, dev) then Saved(false, None, "", [tga], created, bytes, [])
        else WriteStep(filename, [tga], opens, created, bytes, o)
    else WriteStep(filename, [], opens, {}, [], o)
  }

  /** The end of doSave: record the IDTF file, write it, and report what _writeFile caught. */
  function WriteStep(filename: string, tgafiles: seq<string>, opens: bool, created: set<string>, bytes: seq<byte>, o: Out): (s: Saved)
  {
    Saved(o.err == "", if o.err == "" then None else Some(WRITE_FAILED + o.err), filename, tgafiles,
          created + (if opens then {filename} else {}), bytes, if opens then o.lines else [])
  }

  /** doSave when saveTGA fails: nothing but the texture file is recorded, and the IDTF file is not written. */
  lemma TgaFailedOutcome(inMesh: Mesh, merged: Mesh, filename: string, dev: TgaImage.Device, opens: bool, o: Out,
                         tgafname: string, tga: seq<byte>, err: string, before: set<string>, after: set<string>)
    requires TextureFits(Exported(inMesh, merged))
    requires HasMaterials(Exported(inMesh, merged)) && !Empty(FirstTexture(Exported(inMesh, merged)))
    requires tgafname == TgaName(filename)
    requires var tx := FirstTexture(Exported(inMesh, merged));
             var wrote := TgaImage.Saveable(tx) && dev.opens;
             && !TgaSaved(tx, dev)
             && tga == (if wrote then TgaImage.Prefix(TgaImage.TgaBytes(tx), dev.capacity) else [])
             && after == before + (if wrote then {tgafname} else {})
    ensures SavedAs(SaveSpec(inMesh, merged, filename, dev, opens, o), false, tga, [], "", [tgafname], err, err, before, after)
  {
  }

  /** doSave when saveTGA succeeds: the IDTF file is recorded and written after the texture file. */
  lemma TgaSavedOutcome(inMesh: Mesh, merged: Mesh, filename: string, dev: TgaImage.Device, opens: bool, o: Out,
                        tgafname: string, tga: seq<byte>, err0: string, before: set<string>, after: set<string>)
    requires TextureFits(Exported(inMesh, merged))
    requires HasMaterials(Exported(inMesh, merged)) && !Empty(FirstTexture(Exported(inMesh, merged)))
    requires tgafname == TgaName(filename)
    requires var tx := FirstTexture(Exported(inMesh, merged));
             && TgaSaved(tx, dev)
             && tga == TgaImage.Prefix(TgaImage.TgaBytes(tx), dev.capacity)
             && after == before + {tgafname} + (if opens then {filename} else {})
    ensures SavedAs(SaveSpec(inMesh, merged, filename, dev, opens, o), o.err == "", tga, if opens then o.lines else [],
                    filename, [tgafname], if o.err == "" then err0 else WRITE_FAILED + o.err, err0, before, after)
  {
  }

  /** What _reset leaves of the regular files: the recorded ones are gone when deletion is on. */
  function AfterReset(delOnDtor: bool, regular: set<string>, recorded: set<string>): set<string>
  {
    if delOnDtor then regular - (recorded - {""}) else regular
  }

  function Names(s: seq<string>): set<string>
  {
    set t | t in s
  }

  /** The texture file is named like a TGA file, whatever the save name. */
  lemma TgaNameExtension(filename: string)
    ensures Extension(TgaName(filename)) == ".tga"
  {
    TgaExtension(Join(ParentPath(filename), Stem(filename)) + "_M0");
  }

  /**
   * The texture file sits beside the save name: in its directory, named by
   * its stem with "_M0.tga"; with an empty stem, `tpath /= stem` leaves the
   * directory itself, so "_M0.tga" is appended to the directory's name.
   */
  lemma TgaNamePlacement(filename: string)
    ensures Stem(filename) != "" ==> Filename(TgaName(filename)) == Stem(filename) + "_M0.tga"
    ensures Stem(filename) == "" ==> TgaName(filename) == ParentPath(filename) + "_M0.tga"
  {
    var j := Join(ParentPath(filename), Stem(filename));
    TgaNameSuffix(j);
    StemNoSeparator(filename);
    if Stem(filename) != "" {
      var tail := "_M0.tga";
      assert '/' !in tail;
      FilenameOfJoinAppend(ParentPath(filename), Stem(filename), tail);
    }
  }

  lemma TgaNameSuffix(j: string)
    ensures j + "_M0" + "." + "tga" == j + "_M0.tga"
  {
    var m0, tga := "_M0", "tga";
    assert m0 + "." + tga == "_M0.tga";
    assert j + m0 + "." + tga == j + (m0 + "." + tga);
  }

  /**
   * For "dir/stem.ext" the texture is "dir/stem_M0.tga", and "dir_M0.tga"
   * when the stem is empty, where dir has lost the separators it ended with
   * ("d//.idtf" gives "d_M0.tga").
   */
  lemma TgaNameOf(dir: string, stem: string, e: string)
    requires TrimSeparators(dir) != "" && '/' !in stem && '.' !in stem
    requires e != [] && '.' !in e && '/' !in e
    ensures var d := TrimSeparators(dir);
      TgaName(dir + "/" + stem + "." + e) == (if stem == "" then d else d + "/" + stem) + "_M0.tga"
  {
    var d := TrimSeparators(dir);
    JoinStemOf(dir, stem, e);
    TgaNameSuffix(if stem == "" then d else d + "/" + stem);
  }

  lemma TgaExtension(u: string)
    ensures Extension(u + "." + "tga") == ".tga"
  {
    var e := "tga";
    assert e != [] && '.' !in e && '/' !in e;
    ExtensionOfDottedSuffix(u, e);
  }

  /** Every file doSave creates is one it records, so the next _reset can delete it. */
  lemma SaveRecordsCreated(inMesh: Mesh, merged: Mesh, filename: string, dev: TgaImage.Device, opens: bool, o: Out)
    requires TextureFits(Exported(inMesh, merged))
    ensures var s := SaveSpec(inMesh, merged, filename, dev, opens, o);
      s.created <= {s.idtffile} + Names(s.tgafiles)
  {
  }

  /**
   * doSave reports one of two errors, the missing texture or the caught uv
   * lookup, or fails silently when saveTGA fails; the missing texture stops
   * it before any file is recorded or created.
   */
  lemma SaveErrors(inMesh: Mesh, merged: Mesh, filename: string, dev: TgaImage.Device, opens: bool, o: Out)
    requires TextureFits(Exported(inMesh, merged))
    requires o.err in {"", MAP_AT}
    ensures var s := SaveSpec(inMesh, merged, filename, dev, opens, o);
      && (s.ok ==> s.err.None? && s.idtffile == filename)
      && (!s.ok && s.err.None? ==> s.idtffile == "" && |s.tgafiles| == 1)
      && (s.err.Some? ==> s.err.value in {NO_TEXTURE, WRITE_FAILED + MAP_AT})
      && (s.err == Some(NO_TEXTURE) ==> s.created == {} && s.tgafiles == [] && s.text == [])
  {
  }

  /**
   * For a valid mesh doSave succeeds exactly when the exported mesh has no
   * material, or its first material's texture is non-empty and saveTGA
   * writes it whole.
   */
  lemma SaveOutcome(inMesh: Mesh, merged: Mesh, filename: string, media9: bool, ems: Colour, dev: TgaImage.Device, opens: bool)
    requires TextureFits(Exported(inMesh, merged)) && Valid(Exported(inMesh, merged))
    ensures var m := Exported(inMesh, merged);
      SaveSpec(inMesh, merged, filename, dev, opens, WriteFile(m, media9, ems, TgaFor(m, filename))).ok <==>
        (HasMaterials(m) ==> !Empty(FirstTexture(m)) && TgaSaved(FirstTexture(m), dev))
  {
    var m := Exported(inMesh, merged);
    WriteFileComplete(m, media9, ems, TgaFor(m, filename));
  }

  /**
   * The exporter and the file system after a save that went as s says: its
   * outcome, TGA bytes, text and records, its error (err0 when it reports
   * none), and the files it created on top of r0.
   */
  ghost predicate SavedAs(s: Saved, ok: bool, tga: seq<byte>, text: seq<Line>, idtffile: string, tgafiles: seq<string>,
                          err: string, err0: string, r0: set<string>, regular: set<string>)
  {
    && ok == s.ok && tga == s.tga && text == s.text
    && idtffile == s.idtffile && tgafiles == s.tgafiles
    && err == (if s.err.Some? then s.err.value else err0)
    && regular == r0 + s.created
  }

  class Exporter {
    const formats: IOFormats.Formats
    const delOnDtor: bool
    const media9: bool
    const ems: Colour
    var idtffile: string
    var tgafiles: seq<string>

    /** The registry is valid and supports "idtf". */
    ghost predicate Valid()
      reads this, formats
    {
      formats.Valid() && "idtf" in formats.descs
    }

    /** The files recorded for deletion. */
    function Recorded(): set<string>
      reads this
    {
      {idtffile} + Names(tgafiles)
    }

    /** The constructor registers "idtf" and records no file. */
    constructor (delFiles: bool, m9: bool, emissive: Colour)
      ensures Valid() && fresh(formats)
      ensures formats.exts == ["idtf"] && formats.descs == map["idtf" := IDTF_DESC] && formats.err == ""
      ensures delOnDtor == delFiles && media9 == m9 && ems == emissive
      ensures idtffile == "" && tgafiles == []
    {
      delOnDtor := delFiles;
      media9 := m9;
      ems := emissive;
      idtffile := "";
      tgafiles := [];
      var f := new IOFormats.Formats();
      assert Trim(IDTF_DESC) == IDTF_DESC;
      var _ := IOFormats.RegisterWord(f, "idtf", IDTF_DESC);
      formats := f;
    }

    /**
     * _reset: with deletion on, removes the recorded IDTF file and each
     * recorded TGA file that is a regular file; then forgets them all. A
     * second call therefore changes nothing.
     */
    method Reset(fs: Files.FileSystem)
      modifies this, fs
      ensures idtffile == "" && tgafiles == []
      ensures fs.regular == AfterReset(delOnDtor, old(fs.regular), old(Recorded()))
    {
      if delOnDtor {
        if fs.IsRegularFile(idtffile) {
          fs.Remove(idtffile);
        }
        var i := 0;
        assert Names(tgafiles[..0]) == {};
        while i < |tgafiles|
          invariant 0 <= i <= |tgafiles|
          invariant idtffile == old(idtffile) && tgafiles == old(tgafiles)
          invariant fs.regular == old(fs.regular) - (({idtffile} + Names(tgafiles[..i])) - {""})
        {
          if fs.IsRegularFile(tgafiles[i]) {
            fs.Remove(tgafiles[i]);
          }
          assert tgafiles[..i + 1] == tgafiles[..i] + [tgafiles[i]];
          assert Names(tgafiles[..i + 1]) == Names(tgafiles[..i]) + {tgafiles[i]};
          i := i + 1;
        }
        assert tgafiles[..i] == tgafiles;
      }
      idtffile := "";
      tgafiles := [];
    }

    /**
     * doSave: _reset, then save the first material's texture as a TGA file
     * (recording its name first) and write the IDTF file. `merged` stands for
     * the merged deep copy of a mesh with several materials; the input itself
     * is a value and is never changed.
     */
    method DoSave(inMesh: Mesh, filename: string, merged: Mesh, fs: Files.FileSystem, dev: TgaImage.Device, opens: bool)
      returns (ok: bool, tga: seq<byte>, text: seq<Line>)
      requires Valid() && TextureFits(Exported(inMesh, merged))
      modifies this, formats, fs
      ensures Valid() && formats.exts == old(formats.exts) && formats.descs == old(formats.descs)
      ensures var m := Exported(inMesh, merged);
        var s := SaveSpec(inMesh, merged, filename, dev, opens, WriteFile(m, media9, ems, TgaFor(m, filename)));
        && ok == s.ok && tga == s.tga && text == s.text
        && idtffile == s.idtffile && tgafiles == s.tgafiles
        && formats.err == (if s.err.Some? then s.err.value else old(formats.err))
        && fs.regular == AfterReset(delOnDtor, old(fs.regular), old(Recorded())) + s.created
    {
      var m := if NumMats(inMesh) <= 1 then inMesh else merged;
      ok, tga, text := DoSaveText(inMesh, filename, merged, fs, dev, opens, WriteFile(m, media9, ems, TgaFor(m, filename)));
    }

    /**
     * MeshExporter::save on an IDTFExporter: the filename guards, then
     * doSave, whose result is returned as it is.
     */
    method Save(inMesh: Mesh, filename: string, merged: Mesh, fs: Files.FileSystem, dev: TgaImage.Device, opens: bool)
      returns (ok: bool, tga: seq<byte>, text: seq<Line>)
      requires Valid() && TextureFits(Exported(inMesh, merged))
      modifies this, formats, fs
      ensures Valid() && formats.exts == old(formats.exts) && formats.descs == old(formats.descs)
      ensures filename == "" ==> formats.err == MeshExporter.EMPTY_FILENAME
      ensures filename != "" && !formats.IsSupported(filename) ==> formats.err == MeshExporter.Unsupported(filename)
      ensures !(filename != "" && formats.IsSupported(filename)) ==>
        && !ok && tga == [] && text == []
        && idtffile == old(idtffile) && tgafiles == old(tgafiles) && fs.regular == old(fs.regular)
      ensures filename != "" && formats.IsSupported(filename) ==>
        var m := Exported(inMesh, merged);
        var s := SaveSpec(inMesh, merged, filename, dev, opens, WriteFile(m, media9, ems, TgaFor(m, filename)));
        && ok == s.ok && tga == s.tga && text == s.text
        && idtffile == s.idtffile && tgafiles == s.tgafiles
        && formats.err == (if s.err.Some? then s.err.value else "")
        && fs.regular == AfterReset(delOnDtor, old(fs.regular), old(Recorded())) + s.created
    {
      var m := if NumMats(inMesh) <= 1 then inMesh else merged;
      ok, tga, text := SaveText(inMesh, filename, merged, fs, dev, opens, WriteFile(m, media9, ems, TgaFor(m, filename)));
    }

    /** Save, given the text o that _writeFile produces for the exported mesh. */
    method SaveText(inMesh: Mesh, filename: string, merged: Mesh, fs: Files.FileSystem, dev: TgaImage.Device, opens: bool, o: Out)
      returns (ok: bool, tga: seq<byte>, text: seq<Line>)
      requires Valid() && TextureFits(Exported(inMesh, merged))
      modifies this, formats, fs
      ensures Valid() && formats.exts == old(formats.exts) && formats.descs == old(formats.descs)
      ensures filename == "" ==> formats.err == MeshExporter.EMPTY_FILENAME
      ensures filename != "" && !formats.IsSupported(filename) ==> formats.err == MeshExporter.Unsupported(filename)
      ensures !(filename != "" && formats.IsSupported(filename)) ==>
        && !ok && tga == [] && text == []
        && idtffile == old(idtffile) && tgafiles == old(tgafiles) && fs.regular == old(fs.regular)
      ensures filename != "" && formats.IsSupported(filename) ==>
        var s := SaveSpec(inMesh, merged, filename, dev, opens, o);
        && ok == s.ok && tga == s.tga && text == s.text
        && idtffile == s.idtffile && tgafiles == s.tgafiles
        && formats.err == (if s.err.Some? then s.err.value else "")
        && fs.regular == AfterReset(delOnDtor, old(fs.regular), old(Recorded())) + s.created
    {
      var proceed := MeshExporter.CheckSave(formats, filename);
      if !proceed {
        return false, [], [];
      }
      ok, tga, text := DoSaveText(inMesh, filename, merged, fs, dev, opens, o);
    }

    /** doSave, given the text o that _writeFile produces for the exported mesh. */
    method DoSaveText(inMesh: Mesh, filename: string, merged: Mesh, fs: Files.FileSystem, dev: TgaImage.Device, opens: bool, o: Out)
      returns (ok: bool, tga: seq<byte>, text: seq<Line>)
      requires Valid() && TextureFits(Exported(inMesh, merged))
      modifies this, formats, fs
      ensures Valid() && formats.exts == old(formats.exts) && formats.descs == old(formats.descs)
      ensures SavedAs(SaveSpec(inMesh, merged, filename, dev, opens, o), ok, tga, text, idtffile, tgafiles,
                      formats.err, old(formats.err), AfterReset(delOnDtor, old(fs.regular), old(Recorded())), fs.regular)
    {
      Reset(fs);
      ok, tga, text := SaveFresh(inMesh, filename, merged, fs, dev, opens, o);
    }

    /** What doSave does once _reset has cleared the records. */
    method SaveFresh(inMesh: Mesh, filename: string, merged: Mesh, fs: Files.FileSystem, dev: TgaImage.Device, opens: bool, o: Out)
      returns (ok: bool, tga: seq<byte>, text: seq<Line>)
      requires Valid() && TextureFits(Exported(inMesh, merged)) && idtffile == "" && tgafiles == []
      modifies this, formats, fs
      ensures Valid() && formats.exts == old(formats.exts) && formats.descs == old(formats.descs)
      ensures SavedAs(SaveSpec(inMesh, merged, filename, dev, opens, o), ok, tga, text, idtffile, tgafiles,
                      formats.err, old(formats.err), old(fs.regular), fs.regular)
    {
      var m := if NumMats(inMesh) <= 1 then inMesh else merged;
      if HasMaterials(m) {
        ok, tga, text := SaveTextured(inMesh, filename, merged, fs, dev, opens, o);
      } else {
        tga := [];
        ok, text := WriteIdtf(o, filename, fs, opens);
      }
    }

    /** SaveFresh for a mesh with materials: the texture goes first. */
    method SaveTextured(inMesh: Mesh, filename: string, merged: Mesh, fs: Files.FileSystem, dev: TgaImage.Device, opens: bool, o: Out)
      returns (ok: bool, tga: seq<byte>, text: seq<Line>)
      requires Valid() && TextureFits(Exported(inMesh, merged)) && idtffile == "" && tgafiles == []
      requires HasMaterials(Exported(inMesh, merged))
      modifies this, formats, fs
      ensures Valid() && formats.exts == old(formats.exts) && formats.descs == old(formats.descs)
      ensures SavedAs(SaveSpec(inMesh, merged, filename, dev, opens, o), ok, tga, text, idtffile, tgafiles,
                      formats.err, old(formats.err), old(fs.regular), fs.regular)
    {
      var m := if NumMats(inMesh) <= 1 then inMesh else merged;
      var tx := Texture(m, m.materialIds[0]);
      if tx.rows * tx.cols == 0 {
        formats.SetErr(NO_TEXTURE);
        return false, [], [];
      }
      ok, tga, text := SaveNonEmpty(inMesh, filename, merged, fs, dev, opens, o);
    }

    /** SaveTextured once the texture is known not to be empty. */
    method SaveNonEmpty(inMesh: Mesh, filename: string, merged: Mesh, fs: Files.FileSystem, dev: TgaImage.Device, opens: bool, o: Out)
      returns (ok: bool, tga: seq<byte>, text: seq<Line>)
      requires Valid() && TextureFits(Exported(inMesh, merged)) && idtffile == "" && tgafiles == []
      requires HasMaterials(Exported(inMesh, merged)) && !Empty(FirstTexture(Exported(inMesh, merged)))
      modifies this, formats, fs
      ensures Valid() && formats.exts == old(formats.exts) && formats.descs == old(formats.descs)
      ensures SavedAs(SaveSpec(inMesh, merged, filename, dev, opens, o), ok, tga, text, idtffile, tgafiles,
                      formats.err, old(formats.err), old(fs.regular), fs.regular)
    {
      var m := if NumMats(inMesh) <= 1 then inMesh else merged;
      var tx := Texture(m, m.materialIds[0]);
      ghost var before, err0 := fs.regular, formats.err;
      var saved, tgafname;
      saved, tgafname, tga := SaveTexture(tx, filename, fs, dev);
      if !saved {
        ok, text := false, [];
        TgaFailedOutcome(inMesh, merged, filename, dev, opens, o, tgafname, tga, err0, before, fs.regular);
        return;
      }
      ok, text := WriteIdtf(o, filename, fs, opens);
      TgaSavedOutcome(inMesh, merged, filename, dev, opens, o, tgafname, tga, err0, before, fs.regular);
    }

    /** The texture part of doSave: name the TGA file, record it, then saveTGA. */
    method SaveTexture(tx: Image, filename: string, fs: Files.FileSystem, dev: TgaImage.Device)
      returns (saved: bool, tgafname: string, tga: seq<byte>)
      requires Valid() && WellFormed(tx) && tx.rows < 32768 && tx.cols < 32768
      modifies this, fs
      ensures Valid() && formats.err == old(formats.err)
      ensures tgafname == TgaName(filename)
      ensures tgafiles == old(tgafiles) + [tgafname] && idtffile == old(idtffile)
      ensures saved == TgaSaved(tx, dev)
      ensures tga == (if TgaImage.Saveable(tx) && dev.opens then TgaImage.Prefix(TgaImage.TgaBytes(tx), dev.capacity) else [])
      ensures fs.regular == old(fs.regular) + (if TgaImage.Saveable(tx) && dev.opens then {tgafname} else {})
    {
      tgafname := Join(ParentPath(filename), Stem(filename)) + "_M0" + "." + "tga";
      tgafiles := tgafiles + [tgafname];
      saved, tga := TgaImage.SaveTga(tx, tgafname, fs, dev);
      if !(TgaImage.Saveable(tx) && dev.opens) {
        assert fs.regular == old(fs.regular) + {};
      }
    }

    /** The end of doSave: record the IDTF file, write the text o to it, and report what _writeFile caught. */
    method WriteIdtf(o: Out, filename: string, fs: Files.FileSystem, opens: bool)
      returns (ok: bool, text: seq<Line>)
      requires Valid()
      modifies this, formats, fs
      ensures Valid()
      ensures idtffile == filename && tgafiles == old(tgafiles)
      ensures formats.exts == old(formats.exts) && formats.descs == old(formats.descs)
      ensures ok == (o.err == "") && text == (if opens then o.lines else [])
      ensures formats.err == (if o.err == "" then old(formats.err) else WRITE_FAILED + o.err)
      ensures fs.regular == old(fs.regular) + (if opens then {filename} else {})
    {
      idtffile := filename;
      text := [];
      if opens {
        fs.Create(filename);
        text := o.lines;
      }
      if o.err != "" {
        formats.SetErr(WRITE_FAILED + o.err);
      }
      ok := o.err == "";
    }
  }
}
