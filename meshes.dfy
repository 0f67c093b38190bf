/**
 * The value model of an r3d::Mesh as the exporters read it. The id sets of
 * r3d::Mesh are unordered hash sets, so every id set is given here as a
 * sequence in its (fixed but unspecified) iteration order. Positions and
 * texture coordinates are opaque values; only their identity and the
 * permutation of their components matter to the library.
 */
module Meshes {

  import Images
  import opened Remap
  import opened Text

  datatype Vec3 = Vec3(x: real, y: real, z: real)

  datatype Vec2 = Vec2(u: real, v: real)

  /** Three ids in a face's winding order. */
  datatype Tri = Tri(a: int, b: int, c: int)
  {
    function At(k: nat): int
      requires k < 3
    {
      if k == 0 then a else if k == 1 then b else c
    }
  }

  datatype Mesh = Mesh(
    vtxIds: seq<int>,                 // vtxIds()
    vtx: map<int, Vec3>,              // vtx(vid)
    faces: seq<int>,                  // faces()
    fvidxs: map<int, Tri>,            // fvidxs(fid)
    faceMat: map<int, int>,           // faceMaterialId(fid); absent means -1
    faceUVs: map<int, Tri>,           // faceUVs(fid); absent means a null pointer
    materialIds: seq<int>,            // materialIds()
    matFaces: map<int, seq<int>>,     // materialFaceIds(mid)
    matUVs: map<int, seq<int>>,       // uvs(mid)
    uv: map<int, map<int, Vec2>>,     // uv(mid, uvid)
    texture: map<int, Images.Image>)  // texture(mid)

  function NumVtxs(m: Mesh): nat { |m.vtxIds| }

  function NumFaces(m: Mesh): nat { |m.faces| }

  function NumMats(m: Mesh): nat { |m.materialIds| }

  predicate HasMaterials(m: Mesh) { |m.materialIds| > 0 }

  function FaceMaterialId(m: Mesh, f: int): int
  {
    if f in m.faceMat then m.faceMat[f] else -1
  }

  function MaterialFaceIds(m: Mesh, mid: int): seq<int>
  {
    if mid in m.matFaces then m.matFaces[mid] else []
  }

  function Uvs(m: Mesh, mid: int): seq<int>
  {
    if mid in m.matUVs then m.matUVs[mid] else []
  }

  /** The corners of a face; r3d::Mesh keeps one for every face it lists. */
  function Corners(m: Mesh, f: int): Tri
  {
    if f in m.fvidxs then m.fvidxs[f] else Tri(-1, -1, -1)
  }

  /** faceUVs(fid); a face without them would be a null pointer, which a valid mesh never gives a material's face. */
  function UvCorners(m: Mesh, f: int): Tri
  {
    if f in m.faceUVs then m.faceUVs[f] else Tri(-1, -1, -1)
  }

  /** A vertex position; r3d::Mesh keeps one for every vertex id it lists. */
  function Vtx(m: Mesh, v: int): Vec3
  {
    if v in m.vtx then m.vtx[v] else Vec3(0.0, 0.0, 0.0)
  }

  /** A texture coordinate of a material; r3d::Mesh keeps one for every uv id it lists. */
  function Uv(m: Mesh, mid: int, id: int): Vec2
  {
    if mid in m.uv && id in m.uv[mid] then m.uv[mid][id] else Vec2(0.0, 0.0)
  }

  /** A material's texture; the empty matrix for an unknown material. */
  function Texture(m: Mesh, mid: int): Images.Image
  {
    if mid in m.texture then m.texture[mid] else Images.NoImage()
  }

  /** A position written as one line: the leading tokens, then x, y and z. */
  function PositionLine(lead: seq<Tok>, v: Vec3): Line
  {
    Line(0, lead + [F(v.x), F(v.y), F(v.z)])
  }

  /** The position lines of the listed vertices, in order. */
  function PositionLines(m: Mesh, lead: seq<Tok>, vids: seq<int>): (r: seq<Line>)
    ensures |r| == |vids|
  {
    if vids == [] then [] else PositionLines(m, lead, vids[..|vids| - 1]) + [PositionLine(lead, Vtx(m, vids[|vids| - 1]))]
  }

  lemma {:induction false} PositionLinesAt(m: Mesh, lead: seq<Tok>, vids: seq<int>)
    ensures forall i :: 0 <= i < |vids| ==> PositionLines(m, lead, vids)[i] == PositionLine(lead, Vtx(m, vids[i]))
  {
    if vids != [] {
      PositionLinesAt(m, lead, vids[..|vids| - 1]);
    }
  }

  predicate CornersIn(t: Tri, ids: seq<int>)
  {
    t.a in ids && t.b in ids && t.c in ids
  }

  /**
   * The invariants r3d::Mesh maintains: ids are listed once, material ids are
   * non-negative, every face has corners among the listed vertices, every face
   * of a material carries that material with a uv triple among the material's
   * uv ids, and a face carries a material only if that material lists it.
   */
  predicate Valid(m: Mesh)
  {
    && Distinct(m.vtxIds) && Distinct(m.faces) && Distinct(m.materialIds)
    && (forall mid :: mid in m.materialIds ==> mid >= 0)
    && (forall v :: v in m.vtxIds ==> v in m.vtx)
    && (forall f :: f in m.faces ==> f in m.fvidxs && CornersIn(m.fvidxs[f], m.vtxIds))
    && (forall mid :: mid in m.materialIds ==> Distinct(MaterialFaceIds(m, mid)) && Distinct(Uvs(m, mid)))
    && (forall mid, f :: mid in m.materialIds && f in MaterialFaceIds(m, mid) ==>
          f in m.faces && FaceMaterialId(m, f) == mid && f in m.faceUVs && CornersIn(m.faceUVs[f], Uvs(m, mid)))
    && (forall f :: f in m.faces && FaceMaterialId(m, f) >= 0 ==>
          FaceMaterialId(m, f) in m.materialIds && f in MaterialFaceIds(m, FaceMaterialId(m, f)))
  }

  /** The faces the first n of the listed materials claim. */
  function MatFaceSet(m: Mesh, mids: seq<int>, n: nat): set<int>
    requires n <= |mids|
  {
    if n == 0 then {} else MatFaceSet(m, mids, n - 1) + Elements(MaterialFaceIds(m, mids[n - 1]))
  }

  /** remfids after the material loop: the faces no material of the mesh claims. */
  function Remaining(m: Mesh): seq<int>
  {
    Keep(m.faces, MatFaceSet(m, m.materialIds, NumMats(m)))
  }

  /** The faces each of the first n materials claims: those listed by one of them. */
  lemma {:induction false} MatFaceSetMembers(m: Mesh, mids: seq<int>, n: nat)
    requires n <= |mids|
    ensures forall f :: f in MatFaceSet(m, mids, n) <==> exists i :: 0 <= i < n && f in MaterialFaceIds(m, mids[i])
  {
    if n > 0 {
      MatFaceSetMembers(m, mids, n - 1);
    }
  }

  /**
   * The faces written without texture coordinates are exactly the mesh's
   * faces that carry no material, each once.
   */
  lemma RemainingExactly(m: Mesh)
    requires Valid(m)
    ensures forall f :: f in Remaining(m) <==> f in m.faces && FaceMaterialId(m, f) < 0
    ensures Distinct(Remaining(m))
  {
    var claimed := MatFaceSet(m, m.materialIds, NumMats(m));
    MatFaceSetMembers(m, m.materialIds, NumMats(m));
    KeepDistinct(m.faces, claimed);
    forall f | f in m.faces
      ensures f in claimed <==> FaceMaterialId(m, f) >= 0
    {
      if FaceMaterialId(m, f) >= 0 {
        var mid := FaceMaterialId(m, f);
        var i :| 0 <= i < |m.materialIds| && m.materialIds[i] == mid;
        assert f in MaterialFaceIds(m, m.materialIds[i]);
        assert f in claimed;
      } else {
        forall i | 0 <= i < NumMats(m)
          ensures f !in MaterialFaceIds(m, m.materialIds[i])
        {
          assert m.materialIds[i] in m.materialIds;
        }
        assert f !in claimed;
      }
    }
  }

  /** The sizes of the face sets of the first n listed materials, added up. */
  function FaceTotal(m: Mesh, mids: seq<int>, n: nat): nat
    requires n <= |mids|
  {
    if n == 0 then 0 else FaceTotal(m, mids, n - 1) + |MaterialFaceIds(m, mids[n - 1])|
  }

  /** The materials' face sets, for materials whose faces all say they carry that material, do not overlap. */
  lemma {:induction false} FaceTotalCount(m: Mesh, mids: seq<int>, n: nat)
    requires n <= |mids| && Distinct(mids)
    requires forall i :: 0 <= i < n ==> Distinct(MaterialFaceIds(m, mids[i]))
    requires forall i, f :: 0 <= i < n && f in MaterialFaceIds(m, mids[i]) ==> FaceMaterialId(m, f) == mids[i]
    ensures FaceTotal(m, mids, n) == |MatFaceSet(m, mids, n)|
  {
    if n > 0 {
      FaceTotalCount(m, mids, n - 1);
      var before, here := MatFaceSet(m, mids, n - 1), Elements(MaterialFaceIds(m, mids[n - 1]));
      MatFaceSetMembers(m, mids, n - 1);
      ElementsCount(MaterialFaceIds(m, mids[n - 1]));
      assert before * here == {} by {
        forall f | f in before
          ensures f !in here
        {
          var i :| 0 <= i < n - 1 && f in MaterialFaceIds(m, mids[i]);
          assert FaceMaterialId(m, f) == mids[i] != mids[n - 1];
        }
      }
    }
  }

  /** Faces claimed by the listed materials, each a face of the mesh, and the faces left over add up to the mesh's faces. */
  lemma ClaimedCount(m: Mesh, mids: seq<int>)
    requires Distinct(mids) && Distinct(m.faces)
    requires forall i :: 0 <= i < |mids| ==> Distinct(MaterialFaceIds(m, mids[i]))
    requires forall i, f :: 0 <= i < |mids| && f in MaterialFaceIds(m, mids[i]) ==> f in m.faces && FaceMaterialId(m, f) == mids[i]
    ensures FaceTotal(m, mids, |mids|) + |Keep(m.faces, MatFaceSet(m, mids, |mids|))| == |m.faces|
  {
    ClaimedInMesh(m, mids);
    FaceTotalCount(m, mids, |mids|);
    KeepCount(m.faces, MatFaceSet(m, mids, |mids|));
  }

  lemma ClaimedInMesh(m: Mesh, mids: seq<int>)
    requires forall i, f :: 0 <= i < |mids| && f in MaterialFaceIds(m, mids[i]) ==> f in m.faces
    ensures Elements(m.faces) * MatFaceSet(m, mids, |mids|) == MatFaceSet(m, mids, |mids|)
  {
    MatFaceSetMembers(m, mids, |mids|);
    forall f | f in MatFaceSet(m, mids, |mids|)
      ensures f in m.faces
    {
      var i :| 0 <= i < |mids| && f in MaterialFaceIds(m, mids[i]);
    }
  }

  /** In a valid mesh, the faces the materials claim and the faces left without material add up to the mesh's faces. */
  lemma ValidFaceCount(m: Mesh)
    requires Valid(m)
    ensures FaceTotal(m, m.materialIds, NumMats(m)) + |Remaining(m)| == NumFaces(m)
  {
    ClaimedCount(m, m.materialIds);
  }
}
