/**
 * The Wavefront OBJ writer (src/OBJExporter.cpp): a material file with one
 * entry per material (and a pseudo material for faces left without one),
 * and an OBJ file listing the vertices in ascending id order numbered from
 * 1, each material's texture coordinates in ascending id order numbered
 * from 1 afresh, each material's faces in ascending id order, and finally
 * the faces no material claimed, without texture coordinates.
 */
module ObjExporter {

  import opened Wrappers
  import opened Text
  import opened Paths
  import opened Remap
  import opened Sorting
  import opened Meshes
  import Images
  import Files
  import IOFormats
  import MeshExporter

  const OBJ_DESC := "Wavefront OBJ"

  const MTL_HEAD := "# Wavefront OBJ material file produced by r3dio (https://github.com/richeytastic/r3dio)"

  const OBJ_HEAD := "# Wavefront OBJ file produced by r3dio (https://github.com/richeytastic/r3dio)"

  const MTL_FAILED := "Unable to write OBJ .mtl file! "

  const WRITE_FAILED := "Unable to write OBJ file! : "

  /** getMaterialName: the stem of the file's name, '_' and the material id. */
  function MaterialName(fname: string, mid: int): string
  {
    Stem(Filename(fname)) + "_" + IntToString(mid)
  }

  function ImageExt(asPNG: bool): string
  {
    if asPNG then ".png" else ".jpg"
  }

  /** pmid after a loop over the first n of mids: the last id visited plus one, or 0 when none was. */
  function PseudoId(mids: seq<int>, n: nat): int
    requires n <= |mids|
  {
    if n == 0 then 0 else mids[n - 1] + 1
  }

  // ---------------------------------------------------------------------------
  // The material file.

  /**
   * What writeMaterialFile produces: its lines, the text of the exception
   * that ended it (None when it ran to the end), and the image files that
   * cv::imwrite was called for and returned from.
   */
  datatype Mtl = Mtl(lines: seq<Line>, caught: Option<string>, images: seq<string>)

  /** "newmtl name": the declaration of a material that usemtl refers to. */
  function NewMtl(name: string): Line
  {
    Line(0, [W("newmtl"), W(name)])
  }

  function MtlEntryHead(name: string): seq<Line>
  {
    [NewMtl(name), L(0, "illum 1")]
  }

  /** The image file of a material's texture, beside the material file. */
  function ImageFile(matfile: string, name: string, ext: string): string
  {
    Join(ParentPath(matfile), name + ext)
  }

  /**
   * The entry of one material. A material with a non-empty texture names its
   * image, which cv::imwrite then writes; `thrown` maps each image file whose
   * writing throws to the exception's text, and such a throw ends the entry
   * before its closing blank line.
   */
  function Entry(m: Mesh, matfile: string, ext: string, mid: int, thrown: map<string, string>): (r: Mtl)
  {
    var name := MaterialName(matfile, mid);
    if Images.Empty(Texture(m, mid)) then Mtl(MtlEntryHead(name) + [Blank], None, [])
    else
      var img := ImageFile(matfile, name, ext);
      var lines := MtlEntryHead(name) + [Line(0, [W("map_Kd"), W(name + ext)])];
      if img in thrown then Mtl(lines, Some(thrown[img]), [])
      else Mtl(lines + [Blank], None, [img])
  }

  /** The entries of the listed materials, in order. */
  function Entries(m: Mesh, matfile: string, ext: string, mids: seq<int>, thrown: map<string, string>): (es: seq<Mtl>)
    ensures |es| == |mids|
    ensures forall i :: 0 <= i < |mids| ==> es[i] == Entry(m, matfile, ext, mids[i], thrown)
  {
    if mids == [] then [] else [Entry(m, matfile, ext, mids[0], thrown)] + Entries(m, matfile, ext, mids[1..], thrown)
  }

  /** Entries written one after another, up to and including the first that throws. */
  function MtlConcat(es: seq<Mtl>): (r: Mtl)
    ensures es == [] ==> r == Mtl([], None, [])
  {
    if es == [] then Mtl([], None, [])
    else if es[0].caught.Some? then es[0]
    else
      var rest := MtlConcat(es[1..]);
      Mtl(es[0].lines + rest.lines, rest.caught, es[0].images + rest.images)
  }

  /** A loop writing es[k] after the lines and images of es[..k] keeps to MtlConcat(es). */
  lemma MtlConcatStep(es: seq<Mtl>, k: nat, lines: seq<Line>, images: seq<string>)
    requires k < |es|
    requires var rest := MtlConcat(es[k..]); MtlConcat(es) == Mtl(lines + rest.lines, rest.caught, images + rest.images)
    ensures es[k].caught.Some? ==> MtlConcat(es) == Mtl(lines + es[k].lines, es[k].caught, images + es[k].images)
    ensures var rest := MtlConcat(es[k + 1..]);
      es[k].caught.None? ==> MtlConcat(es) == Mtl(lines + es[k].lines + rest.lines, rest.caught, images + es[k].images + rest.images)
  {
    var here := es[k..];
    assert here[0] == es[k] && here[1..] == es[k + 1..];
    if es[k].caught.None? {
      var rest := MtlConcat(es[k + 1..]);
      assert MtlConcat(here) == Mtl(es[k].lines + rest.lines, rest.caught, es[k].images + rest.images);
      assert lines + (es[k].lines + rest.lines) == lines + es[k].lines + rest.lines;
      assert images + (es[k].images + rest.images) == images + es[k].images + rest.images;
    }
  }

  /** The entries of the listed materials, up to the first throw. */
  function MtlEntries(m: Mesh, matfile: string, ext: string, mids: seq<int>, thrown: map<string, string>): (r: Mtl)
  {
    MtlConcat(Entries(m, matfile, ext, mids, thrown))
  }

  /**
   * writeMaterialFile: the header, the materials' entries, then a pseudo
   * material named after pmid when the materials' face counts add up to
   * fewer than the mesh's faces.
   */
  function MtlText(m: Mesh, matfile: string, asPNG: bool, thrown: map<string, string>): (r: Mtl)
  {
    var e := MtlEntries(m, matfile, ImageExt(asPNG), m.materialIds, thrown);
    var head := [L(0, MTL_HEAD), Blank];
    if e.caught.Some? then Mtl(head + e.lines, e.caught, e.images)
    else if FaceTotal(m, m.materialIds, NumMats(m)) < NumFaces(m) then
      Mtl(head + e.lines + MtlEntryHead(MaterialName(matfile, PseudoId(m.materialIds, NumMats(m)))), None, e.images)
    else Mtl(head + e.lines, None, e.images)
  }

  /** The files writing the material file makes: the file itself when it can be opened, and the images written. */
  function MtlCreated(matfile: string, writable: set<string>, r: Mtl): set<string>
  {
    (if matfile in writable then {matfile} else {}) + (set p | p in r.images && p in writable)
  }

  // ---------------------------------------------------------------------------
  // The OBJ file.

  /** A texture coordinate with the third component 0. */
  function UvLine(t: Vec2): Line
  {
    Line(0, [K("vt"), F(t.u), F(t.v), F(0.0)])
  }

  /** The lines of a material's listed texture coordinates, in order. */
  function UvLines(m: Mesh, mid: int, ids: seq<int>): (r: seq<Line>)
    ensures |r| == |ids|
  {
    if ids == [] then [] else UvLines(m, mid, ids[..|ids| - 1]) + [UvLine(Uv(m, mid, ids[|ids| - 1]))]
  }

  predicate Mapped(t: Tri, table: map<int, int>)
  {
    t.a in table && t.b in table && t.c in table
  }

  /** "f<tab>a/ta b/tb c/tc": each corner's vertex number and texture coordinate number, in winding order. */
  function MaterialFaceLine(t: Tri, s: Tri, vv: map<int, int>, uv: map<int, int>): Line
    requires Mapped(t, vv) && Mapped(s, uv)
  {
    Line(0, [K("f"), P(vv[t.a], uv[s.a]), P(vv[t.b], uv[s.b]), P(vv[t.c], uv[s.c])])
  }

  /** The lines of the listed material faces, up to the first lookup that fails (.at throws there). */
  function MaterialFaces(m: Mesh, fids: seq<int>, vv: map<int, int>, uv: map<int, int>): (o: Out)
  {
    if fids == [] then Out([], "")
    else
      var t, s := Corners(m, fids[0]), UvCorners(m, fids[0]);
      if !(Mapped(t, vv) && Mapped(s, uv)) then Out([], MAP_AT)
      else
        var rest := MaterialFaces(m, fids[1..], vv, uv);
        Out([MaterialFaceLine(t, s, vv, uv)] + rest.lines, rest.err)
  }

  /** "f<tab>a b c": the corners' vertex numbers in winding order. */
  function PlainFaceLine(t: Tri, vv: map<int, int>): Line
    requires Mapped(t, vv)
  {
    Line(0, [K("f"), I(vv[t.a]), I(vv[t.b]), I(vv[t.c])])
  }

  /** The lines of the listed faces without texture coordinates, up to the first lookup that fails. */
  function PlainFaces(m: Mesh, fids: seq<int>, vv: map<int, int>): (o: Out)
  {
    if fids == [] then Out([], "")
    else
      var t := Corners(m, fids[0]);
      if !Mapped(t, vv) then Out([], MAP_AT)
      else
        var rest := PlainFaces(m, fids[1..], vv);
        Out([PlainFaceLine(t, vv)] + rest.lines, rest.err)
  }

  function UvComment(name: string, n: int): Line
  {
    Line(0, [W("#"), I(n), W("UV coordinates on material '" + name + "'")])
  }

  function MeshComment(name: string, n: int): Line
  {
    Line(0, [W("# Mesh '" + name + "' with"), I(n), W("faces")])
  }

  function UseMtl(name: string): Line
  {
    Line(0, [W("usemtl"), W(name)])
  }

  /**
   * The block of one material: its texture coordinates in ascending id order
   * numbered from 1 in a table of their own, then its faces in ascending id
   * order.
   */
  function MaterialBlock(m: Mesh, fname: string, mid: int, vv: map<int, int>): (o: Out)
  {
    var name := MaterialName(fname, mid);
    var ids := Sort(Uvs(m, mid));
    var f := MaterialFaces(m, Sort(MaterialFaceIds(m, mid)), vv, OneBased(ids));
    Out(BlockLines(UvComment(name, |Uvs(m, mid)|), UvLines(m, mid, ids),
                   MeshComment(name, |MaterialFaceIds(m, mid)|), UseMtl(name), f.lines), f.err)
  }

  /**
   * The lines of a material block: the uv comment, the uv lines and a blank,
   * another blank, the face comment, usemtl, then the face lines.
   */
  function BlockLines(uvc: Line, uvl: seq<Line>, fc: Line, use: Line, fl: seq<Line>): (r: seq<Line>)
    ensures |r| == |uvl| + 5 + |fl|
    ensures r[0] == uvc
    ensures forall i :: 0 <= i < |uvl| ==> r[1 + i] == uvl[i]
    ensures r[|uvl| + 1..|uvl| + 5] == [Blank, Blank, fc, use]
    ensures forall k :: 0 <= k < |fl| ==> r[|uvl| + 5 + k] == fl[k]
  {
    [uvc] + (uvl + [Blank]) + [Blank, fc, use] + fl
  }

  /** The blocks of the listed materials, in order. */
  function Blocks(m: Mesh, fname: string, mids: seq<int>, vv: map<int, int>): (bs: seq<Out>)
    ensures |bs| == |mids|
    ensures forall i :: 0 <= i < |mids| ==> bs[i] == MaterialBlock(m, fname, mids[i], vv)
  {
    if mids == [] then [] else [MaterialBlock(m, fname, mids[0], vv)] + Blocks(m, fname, mids[1..], vv)
  }

  /** The blocks of the listed materials, up to the first lookup that fails. */
  function MaterialBlocks(m: Mesh, fname: string, mids: seq<int>, vv: map<int, int>): (o: Out)
  {
    Concat(Blocks(m, fname, mids, vv))
  }

  /** The remaining faces in ascending id order under the pseudo material, if there are any. */
  function RemainderBlock(m: Mesh, fname: string, pmid: int, rem: seq<int>, vv: map<int, int>): (o: Out)
  {
    if rem == [] then Out([], "")
    else
      var name := MaterialName(fname, pmid);
      var f := PlainFaces(m, Sort(rem), vv);
      Out([MeshComment(name, |rem|), UseMtl(name)] + f.lines, f.err)
  }

  /** "mtllib name": the material file, named without its directory, since it sits beside the OBJ file. */
  function MtlLib(matfile: string): Line
  {
    Line(0, [W("mtllib"), W(Filename(matfile))])
  }

  /** The lines before the vertices: the header, the material library when there is one, and the vertex count. */
  function ObjHead(m: Mesh, matfile: string): seq<Line>
  {
    [L(0, OBJ_HEAD), Blank]
      + (if matfile != "" then [MtlLib(matfile), Blank] else [])
      + [Line(0, [W("# Mesh has"), I(NumVtxs(m)), W("vertices")])]
  }

  /** What doSave writes to the OBJ file, given the material file's name ("" when there is none). */
  function ObjText(m: Mesh, fname: string, matfile: string): (o: Out)
  {
    var vids := Sort(m.vtxIds);
    var vv := OneBased(vids);
    var pre := ObjHead(m, matfile) + PositionLines(m, [K("v")], vids) + [Blank];
    var b := MaterialBlocks(m, fname, m.materialIds, vv);
    if b.err != "" then Out(pre + b.lines, b.err)
    else
      var r := RemainderBlock(m, fname, PseudoId(m.materialIds, NumMats(m)), Remaining(m), vv);
      Out(pre + b.lines + [Blank] + r.lines + (if r.err == "" then [Blank] else []), r.err)
  }

  // ---------------------------------------------------------------------------
  // The writing loops.

  /** writeMaterialFile's body, without the files it creates. */
  method WriteMaterialFile(m: Mesh, matfile: string, asPNG: bool, thrown: map<string, string>) returns (r: Mtl)
    ensures r == MtlText(m, matfile, asPNG, thrown)
  {
    var head := [L(0, MTL_HEAD), Blank];
    var ext := if asPNG then ".png" else ".jpg";
    var e, pmid, nfaces := WriteEntries(m, matfile, ext, m.materialIds, thrown);
    if e.caught.Some? {
      return Mtl(head + e.lines, e.caught, e.images);
    }
    if nfaces < |m.faces| {
      r := Mtl(head + e.lines + [NewMtl(MaterialName(matfile, pmid)), L(0, "illum 1")], None, e.images);
    } else {
      r := Mtl(head + e.lines, None, e.images);
    }
  }

  /** writeMaterialFile's loop over the materials, counting their faces and keeping the pseudo material id. */
  method WriteEntries(m: Mesh, matfile: string, ext: string, mids: seq<int>, thrown: map<string, string>)
    returns (e: Mtl, pmid: int, nfaces: nat)
    ensures e == MtlEntries(m, matfile, ext, mids, thrown)
    ensures e.caught.None? ==> pmid == PseudoId(mids, |mids|) && nfaces == FaceTotal(m, mids, |mids|)
  {
    pmid, nfaces := 0, 0;
    ghost var es := Entries(m, matfile, ext, mids, thrown);
    var lines: seq<Line> := [];
    var images: seq<string> := [];
    var k := 0;
    EntriesLoopStart(m, mids, es);
    while k < |mids|
      invariant EntriesLoop(m, mids, es, k, pmid, nfaces, lines, images)
    {
      var caught;
      caught, pmid, nfaces, lines, images := WriteCounted(m, matfile, ext, mids, thrown, es, k, pmid, nfaces, lines, images);
      if caught.Some? {
        return Mtl(lines, caught, images), pmid, nfaces;
      }
      k := k + 1;
    }
    assert k == |mids|;
    EntriesLoopEnd(m, mids, es, pmid, nfaces, lines, images);
    e := Mtl(lines, None, images);
  }

  lemma EntriesLoopStart(m: Mesh, mids: seq<int>, es: seq<Mtl>)
    requires |es| == |mids|
    ensures EntriesLoop(m, mids, es, 0, 0, 0, [], [])
  {
    assert es[0..] == es;
  }

  lemma EntriesLoopEnd(m: Mesh, mids: seq<int>, es: seq<Mtl>, pmid: int, nfaces: int, lines: seq<Line>, images: seq<string>)
    requires EntriesLoop(m, mids, es, |mids|, pmid, nfaces, lines, images)
    ensures MtlConcat(es) == Mtl(lines, None, images)
    ensures pmid == PseudoId(mids, |mids|) && nfaces == FaceTotal(m, mids, |mids|)
  {
    assert es[|mids|..] == [];
  }

  ghost predicate EntriesLoop(m: Mesh, mids: seq<int>, es: seq<Mtl>, k: int, pmid: int, nfaces: int, lines: seq<Line>, images: seq<string>)
  {
    0 <= k <= |mids| && |es| == |mids| && pmid == PseudoId(mids, k) && nfaces == FaceTotal(m, mids, k) &&
    var rest := MtlConcat(es[k..]); MtlConcat(es) == Mtl(lines + rest.lines, rest.caught, images + rest.images)
  }

  /** The loop's invariant after the k-th entry is appended. */
  lemma EntriesLoopStep(m: Mesh, mids: seq<int>, es: seq<Mtl>, k: nat, pmid: int, nfaces: nat, lines: seq<Line>, images: seq<string>)
    requires EntriesLoop(m, mids, es, k, pmid, nfaces, lines, images) && k < |mids|
    ensures es[k].caught.Some? ==> MtlConcat(es) == Mtl(lines + es[k].lines, es[k].caught, images + es[k].images)
    ensures es[k].caught.None? ==>
      EntriesLoop(m, mids, es, k + 1, mids[k] + 1, nfaces + |MaterialFaceIds(m, mids[k])|, lines + es[k].lines, images + es[k].images)
  {
    MtlConcatStep(es, k, lines, images);
  }

  /** One pass of writeMaterialFile's loop: the k-th entry, counted. */
  method WriteCounted(m: Mesh, matfile: string, ext: string, mids: seq<int>, thrown: map<string, string>, ghost es: seq<Mtl>,
                      k: nat, pmid: int, nfaces: nat, lines: seq<Line>, images: seq<string>)
    returns (caught: Option<string>, pmid': int, nfaces': nat, lines': seq<Line>, images': seq<string>)
    requires es == Entries(m, matfile, ext, mids, thrown)
    requires EntriesLoop(m, mids, es, k, pmid, nfaces, lines, images) && k < |mids|
    ensures caught.Some? ==> MtlConcat(es) == Mtl(lines', caught, images')
    ensures caught.None? ==> EntriesLoop(m, mids, es, k + 1, pmid', nfaces', lines', images')
  {
    var mid := mids[k];
    var one := WriteEntry(m, matfile, ext, mid, thrown);
    assert one == es[k];
    EntriesLoopStep(m, mids, es, k, pmid, nfaces, lines, images);
    caught, pmid', nfaces', lines', images' := one.caught, mid + 1, nfaces + |MaterialFaceIds(m, mid)|, lines + one.lines, images + one.images;
  }

  /** One pass of writeMaterialFile's loop. */
  method WriteEntry(m: Mesh, matfile: string, ext: string, mid: int, thrown: map<string, string>) returns (r: Mtl)
    ensures r == Entry(m, matfile, ext, mid, thrown)
  {
    var name := MaterialName(matfile, mid);
    var lines := [Line(0, [W("newmtl"), W(name)]), L(0, "illum 1")];
    var images: seq<string> := [];
    var tx := Texture(m, mid);
    if !Images.Empty(tx) {
      lines := lines + [Line(0, [W("map_Kd"), W(name + ext)])];
      var img := Join(ParentPath(matfile), name + ext);
      if img in thrown {
        return Mtl(lines, Some(thrown[img]), []);
      }
      images := [img];
    }
    r := Mtl(lines + [Blank], None, images);
  }

  /** writeVertices: the vertex ids in ascending order, each entered as vvmap[vid] = ++i. */
  method WriteVertices(m: Mesh) returns (lines: seq<Line>, vvmap: map<int, int>)
    ensures lines == PositionLines(m, [K("v")], Sort(m.vtxIds)) && vvmap == OneBased(Sort(m.vtxIds))
  {
    lines, vvmap := NumberVertices(m, Sort(m.vtxIds));
  }

  /** writeVertices' loop over the sorted ids. */
  method NumberVertices(m: Mesh, vids: seq<int>) returns (lines: seq<Line>, vvmap: map<int, int>)
    ensures lines == PositionLines(m, [K("v")], vids) && vvmap == OneBased(vids)
  {
    lines, vvmap := [], map[];
    var i := 0;
    while i < |vids|
      invariant i <= |vids|
      invariant lines == PositionLines(m, [K("v")], vids[..i]) && vvmap == OneBased(vids[..i])
    {
      var vid := vids[i];
      ghost var pre := vids[..i];
      assert vids[..i + 1] == pre + [vid];
      assert (pre + [vid])[..i] == pre;
      i := i + 1;
      vvmap := vvmap[vid := i];
      lines := lines + [PositionLine([K("v")], Vtx(m, vid))];
    }
    assert vids[..i] == vids;
  }

  /** writeMaterialUVs: the material's uv ids in ascending order, each entered as uvmap[uvid] = ++i, then a blank line. */
  method WriteMaterialUVs(m: Mesh, mid: int) returns (lines: seq<Line>, uvmap: map<int, int>)
    ensures lines == UvLines(m, mid, Sort(Uvs(m, mid))) + [Blank] && uvmap == OneBased(Sort(Uvs(m, mid)))
  {
    lines, uvmap := NumberUVs(m, mid, Sort(Uvs(m, mid)));
    lines := lines + [Blank];
  }

  /** writeMaterialUVs' loop over the sorted ids. */
  method NumberUVs(m: Mesh, mid: int, uvids: seq<int>) returns (lines: seq<Line>, uvmap: map<int, int>)
    ensures lines == UvLines(m, mid, uvids) && uvmap == OneBased(uvids)
  {
    lines, uvmap := [], map[];
    var i := 0;
    while i < |uvids|
      invariant i <= |uvids|
      invariant lines == UvLines(m, mid, uvids[..i]) && uvmap == OneBased(uvids[..i])
    {
      var uvid := uvids[i];
      ghost var pre := uvids[..i];
      assert uvids[..i + 1] == pre + [uvid];
      assert (pre + [uvid])[..i] == pre;
      i := i + 1;
      uvmap := uvmap[uvid := i];
      lines := lines + [UvLine(Uv(m, mid, uvid))];
    }
    assert uvids[..i] == uvids;
  }

  /**
   * writeMaterialFaces: the material's face ids in ascending order; each is
   * erased from the remaining faces, then written with its looked-up numbers.
   */
  method WriteMaterialFaces(m: Mesh, mid: int, vv: map<int, int>, uv: map<int, int>, rem: seq<int>)
    returns (o: Out, rem': seq<int>)
    ensures o == MaterialFaces(m, Sort(MaterialFaceIds(m, mid)), vv, uv)
    ensures o.err == "" ==> rem' == Keep(rem, Elements(MaterialFaceIds(m, mid)))
  {
    var mfids := Sort(MaterialFaceIds(m, mid));
    o, rem' := EraseAndWrite(m, mfids, vv, uv, rem);
    SortElements(MaterialFaceIds(m, mid));
    assert Elements(mfids) == Elements(MaterialFaceIds(m, mid));
  }

  /** writeMaterialFaces' loop over the sorted ids. */
  method EraseAndWrite(m: Mesh, mfids: seq<int>, vv: map<int, int>, uv: map<int, int>, rem: seq<int>)
    returns (o: Out, rem': seq<int>)
    ensures o == MaterialFaces(m, mfids, vv, uv)
    ensures o.err == "" ==> rem' == Keep(rem, Elements(mfids))
  {
    var lines: seq<Line> := [];
    rem' := rem;
    KeepNothing(rem);
    assert Elements(mfids[..0]) == {};
    var k := 0;
    while k < |mfids|
      invariant FacesLoop(m, mfids, vv, uv, rem, k, rem', lines)
    {
      var err;
      err, rem', lines := EraseAndWriteOne(m, mfids, vv, uv, rem, k, rem', lines);
      if err != "" {
        return Out(lines, err), rem';
      }
      k := k + 1;
    }
    o := Out(lines, "");
    assert mfids[..k] == mfids;
  }

  /** What writeMaterialFaces' loop keeps after k faces: the remaining faces and the lines so far. */
  ghost predicate FacesLoop(m: Mesh, mfids: seq<int>, vv: map<int, int>, uv: map<int, int>, rem: seq<int>, k: int, rem': seq<int>, lines: seq<Line>)
  {
    0 <= k <= |mfids| && rem' == Keep(rem, Elements(mfids[..k])) &&
    MaterialFaces(m, mfids, vv, uv) == Out(lines + MaterialFaces(m, mfids[k..], vv, uv).lines, MaterialFaces(m, mfids[k..], vv, uv).err)
  }

  /** One pass of writeMaterialFaces' loop: the k-th face is erased from the remaining ones, then written. */
  method EraseAndWriteOne(m: Mesh, mfids: seq<int>, vv: map<int, int>, uv: map<int, int>, ghost rem: seq<int>, k: nat, rem': seq<int>, lines: seq<Line>)
    returns (err: string, rem'': seq<int>, lines': seq<Line>)
    requires FacesLoop(m, mfids, vv, uv, rem, k, rem', lines) && k < |mfids|
    ensures err != "" ==> MaterialFaces(m, mfids, vv, uv) == Out(lines', err)
    ensures err == "" ==> FacesLoop(m, mfids, vv, uv, rem, k + 1, rem'', lines')
  {
    var fid := mfids[k];
    EraseNext(rem, mfids, k);
    MaterialFacesStep(m, mfids, k, vv, uv);
    rem'' := Keep(rem', {fid});
    var t := Corners(m, fid);
    var s := UvCorners(m, fid);
    if !(t.a in vv && s.a in uv && t.b in vv && s.b in uv && t.c in vv && s.c in uv) {
      return MAP_AT, rem'', lines;
    }
    var line := Line(0, [K("f"), P(vv[t.a], uv[s.a]), P(vv[t.b], uv[s.b]), P(vv[t.c], uv[s.c])]);
    ghost var rest := MaterialFaces(m, mfids[k + 1..], vv, uv);
    assert lines + ([line] + rest.lines) == lines + [line] + rest.lines;
    err, lines' := "", lines + [line];
  }

  lemma MaterialFacesStep(m: Mesh, fids: seq<int>, k: nat, vv: map<int, int>, uv: map<int, int>)
    requires k < |fids|
    ensures var t, s := Corners(m, fids[k]), UvCorners(m, fids[k]);
      var rest := MaterialFaces(m, fids[k + 1..], vv, uv);
      MaterialFaces(m, fids[k..], vv, uv) ==
        if Mapped(t, vv) && Mapped(s, uv) then Out([MaterialFaceLine(t, s, vv, uv)] + rest.lines, rest.err) else Out([], MAP_AT)
  {
    assert fids[k..][1..] == fids[k + 1..];
  }

  /** One pass of doSave's material loop: the material's texture coordinates, then its faces. */
  method WriteMaterial(m: Mesh, fname: string, mid: int, vv: map<int, int>, rem: seq<int>) returns (o: Out, rem': seq<int>)
    ensures o == MaterialBlock(m, fname, mid, vv)
    ensures o.err == "" ==> rem' == Keep(rem, Elements(MaterialFaceIds(m, mid)))
  {
    var name := MaterialName(fname, mid);
    var uvlines, uvmap := WriteMaterialUVs(m, mid);
    var f;
    f, rem' := WriteMaterialFaces(m, mid, vv, uvmap, rem);
    o := Out([UvComment(name, |Uvs(m, mid)|)] + uvlines
               + [Blank, MeshComment(name, |MaterialFaceIds(m, mid)|), UseMtl(name)] + f.lines, f.err);
  }

  /** The loop over the remaining faces, in the order given. */
  method WritePlainFaces(m: Mesh, fids: seq<int>, vv: map<int, int>) returns (o: Out)
    ensures o == PlainFaces(m, fids, vv)
  {
    var lines: seq<Line> := [];
    var k := 0;
    while k < |fids|
      invariant k <= |fids|
      invariant var f := PlainFaces(m, fids[k..], vv);
        PlainFaces(m, fids, vv) == Out(lines + f.lines, f.err)
    {
      var t := Corners(m, fids[k]);
      assert fids[k..][1..] == fids[k + 1..];
      if !(t.a in vv && t.b in vv && t.c in vv) {
        return Out(lines, MAP_AT);
      }
      lines := lines + [Line(0, [K("f"), I(vv[t.a]), I(vv[t.b]), I(vv[t.c])])];
      k := k + 1;
    }
    o := Out(lines, "");
  }

  /** The faces left over, sorted, under the pseudo material; nothing when none are left. */
  method WriteRemainder(m: Mesh, fname: string, pmid: int, rem: seq<int>, vv: map<int, int>) returns (o: Out)
    ensures o == RemainderBlock(m, fname, pmid, rem, vv)
  {
    if rem == [] {
      return Out([], "");
    }
    var name := MaterialName(fname, pmid);
    var rfids := Sort(rem);
    var f := WritePlainFaces(m, rfids, vv);
    o := Out([MeshComment(name, |rem|), UseMtl(name)] + f.lines, f.err);
  }

  /** The try block of doSave that writes the OBJ file. */
  method WriteObj(m: Mesh, fname: string, matfile: string) returns (o: Out)
    ensures o == ObjText(m, fname, matfile)
  {
    var head := [L(0, OBJ_HEAD), Blank]
      + (if matfile != "" then [MtlLib(matfile), Blank] else [])
      + [Line(0, [W("# Mesh has"), I(|m.vtxIds|), W("vertices")])];
    var vlines, vv := WriteVertices(m);
    var pre := head + vlines + [Blank];
    var b, rem, pmid := WriteMaterials(m, fname, vv);
    if b.err != "" {
      return Out(pre + b.lines, b.err);
    }
    var r := WriteRemainder(m, fname, pmid, rem, vv);
    o := Out(pre + b.lines + [Blank] + r.lines + (if r.err == "" then [Blank] else []), r.err);
  }

  /** doSave's loop over the materials, erasing their faces from the remaining ones and keeping the pseudo material id. */
  method WriteMaterials(m: Mesh, fname: string, vv: map<int, int>) returns (o: Out, rem: seq<int>, pmid: int)
    ensures o == MaterialBlocks(m, fname, m.materialIds, vv)
    ensures o.err == "" ==> rem == Remaining(m) && pmid == PseudoId(m.materialIds, NumMats(m))
  {
    rem := m.faces;
    var mids := m.materialIds;
    pmid := 0;
    ghost var bs := Blocks(m, fname, mids, vv);
    var acc: seq<Line> := [];
    var k := 0;
    MaterialsLoopStart(m, fname, vv, bs);
    while k < |mids|
      invariant MaterialsLoop(m, fname, vv, bs, k, rem, pmid, acc)
    {
      var err;
      err, rem, pmid, acc := WriteErased(m, fname, vv, bs, k, rem, pmid, acc);
      if err != "" {
        return Out(acc, err), rem, pmid;
      }
      k := k + 1;
    }
    assert k == NumMats(m);
    MaterialsLoopEnd(m, fname, vv, bs, rem, pmid, acc);
    o := Out(acc, "");
  }

  lemma MaterialsLoopStart(m: Mesh, fname: string, vv: map<int, int>, bs: seq<Out>)
    requires |bs| == NumMats(m)
    ensures MaterialsLoop(m, fname, vv, bs, 0, m.faces, 0, [])
  {
    KeepNothing(m.faces);
    assert bs[0..] == bs;
  }

  lemma MaterialsLoopEnd(m: Mesh, fname: string, vv: map<int, int>, bs: seq<Out>, rem: seq<int>, pmid: int, acc: seq<Line>)
    requires MaterialsLoop(m, fname, vv, bs, NumMats(m), rem, pmid, acc)
    ensures Concat(bs) == Out(acc, "")
    ensures rem == Remaining(m) && pmid == PseudoId(m.materialIds, NumMats(m))
  {
    assert bs[NumMats(m)..] == [];
  }

  /** What doSave's material loop keeps after k materials: the faces still unclaimed, pmid, and the blocks so far. */
  ghost predicate MaterialsLoop(m: Mesh, fname: string, vv: map<int, int>, bs: seq<Out>, k: int, rem: seq<int>, pmid: int, acc: seq<Line>)
  {
    0 <= k <= NumMats(m) && |bs| == NumMats(m) && rem == Keep(m.faces, MatFaceSet(m, m.materialIds, k)) &&
    pmid == PseudoId(m.materialIds, k) && Concat(bs) == Out(acc + Concat(bs[k..]).lines, Concat(bs[k..]).err)
  }

  /** One pass of doSave's material loop: the k-th material's block, its faces erased from the remaining ones. */
  method WriteErased(m: Mesh, fname: string, vv: map<int, int>, ghost bs: seq<Out>, k: nat, rem: seq<int>, pmid: int, acc: seq<Line>)
    returns (err: string, rem': seq<int>, pmid': int, acc': seq<Line>)
    requires bs == Blocks(m, fname, m.materialIds, vv)
    requires MaterialsLoop(m, fname, vv, bs, k, rem, pmid, acc) && k < NumMats(m)
    ensures err != "" ==> Concat(bs) == Out(acc', err)
    ensures err == "" ==> MaterialsLoop(m, fname, vv, bs, k + 1, rem', pmid', acc')
  {
    var mid := m.materialIds[k];
    var b;
    b, rem' := WriteMaterial(m, fname, mid, vv, rem);
    assert b == bs[k];
    MaterialsLoopStep(m, fname, vv, bs, k, rem, pmid, acc, b, rem');
    err, pmid', acc' := b.err, mid + 1, acc + b.lines;
  }

  /** MaterialsLoop advances by one material once its block b is written and its faces erased. */
  lemma MaterialsLoopStep(m: Mesh, fname: string, vv: map<int, int>, bs: seq<Out>, k: nat, rem: seq<int>, pmid: int, acc: seq<Line>,
                          b: Out, rem': seq<int>)
    requires MaterialsLoop(m, fname, vv, bs, k, rem, pmid, acc) && k < NumMats(m) && b == bs[k]
    requires b.err == "" ==> rem' == Keep(rem, Elements(MaterialFaceIds(m, m.materialIds[k])))
    ensures b.err != "" ==> Concat(bs) == Out(acc + b.lines, b.err)
    ensures b.err == "" ==> MaterialsLoop(m, fname, vv, bs, k + 1, rem', m.materialIds[k] + 1, acc + b.lines)
  {
    ConcatStep(bs, k, acc);
    KeepKeep(m.faces, MatFaceSet(m, m.materialIds, k), Elements(MaterialFaceIds(m, m.materialIds[k])));
  }

  // ---------------------------------------------------------------------------
  // What the OBJ file says.

  lemma {:induction false} UvLinesAt(m: Mesh, mid: int, ids: seq<int>)
    ensures forall i :: 0 <= i < |ids| ==> UvLines(m, mid, ids)[i] == UvLine(Uv(m, mid, ids[i]))
  {
    if ids != [] {
      UvLinesAt(m, mid, ids[..|ids| - 1]);
    }
  }

  /**
   * writeVertices lists each vertex once, in ascending id order, gives the
   * i-th listed id the number i + 1, and numbers exactly the mesh's vertices.
   */
  lemma VertexNumbering(m: Mesh)
    requires Distinct(m.vtxIds)
    ensures var vids := Sort(m.vtxIds);
      && StrictlyAscending(vids) && |vids| == NumVtxs(m)
      && (forall v :: v in OneBased(vids) <==> v in m.vtxIds)
      && (forall i :: 0 <= i < |vids| ==> OneBased(vids)[vids[i]] == i + 1)
      && (forall i :: 0 <= i < |vids| ==> PositionLines(m, [K("v")], vids)[i] == PositionLine([K("v")], Vtx(m, vids[i])))
  {
    SortElements(m.vtxIds);
    SortStrict(m.vtxIds);
    OneBasedPositions(Sort(m.vtxIds));
    PositionLinesAt(m, [K("v")], Sort(m.vtxIds));
  }

  /**
   * writeMaterialUVs numbers a material's uv ids 1, 2, ... in ascending
   * order in a table of its own, so the numbering restarts at 1 for every
   * material and never exceeds the material's own uv count.
   */
  lemma UvNumbering(m: Mesh, mid: int)
    requires Distinct(Uvs(m, mid))
    ensures var ids := Sort(Uvs(m, mid));
      && StrictlyAscending(ids) && |ids| == |Uvs(m, mid)|
      && (forall id :: id in OneBased(ids) <==> id in Uvs(m, mid))
      && (forall id :: id in OneBased(ids) ==> 1 <= OneBased(ids)[id] <= |ids|)
      && (forall i :: 0 <= i < |ids| ==> OneBased(ids)[ids[i]] == i + 1)
      && (forall i :: 0 <= i < |ids| ==> UvLines(m, mid, ids)[i] == UvLine(Uv(m, mid, ids[i])))
  {
    SortElements(Uvs(m, mid));
    SortStrict(Uvs(m, mid));
    OneBasedPositions(Sort(Uvs(m, mid)));
    UvLinesAt(m, mid, Sort(Uvs(m, mid)));
  }

  /**
   * Writing material faces fails, with .at's error, exactly when some
   * corner or texture corner is missing from its table; otherwise face k's
   * line is "f<tab>a/ta b/tb c/tc" for the k-th listed face.
   */
  lemma {:induction false} MaterialFacesComplete(m: Mesh, fids: seq<int>, vv: map<int, int>, uv: map<int, int>)
    ensures MaterialFaces(m, fids, vv, uv).err in {"", MAP_AT}
    ensures |MaterialFaces(m, fids, vv, uv).lines| <= |fids|
    ensures MaterialFaces(m, fids, vv, uv).err == "" <==>
      forall f :: f in fids ==> Mapped(Corners(m, f), vv) && Mapped(UvCorners(m, f), uv)
    ensures MaterialFaces(m, fids, vv, uv).err == "" ==>
      && |MaterialFaces(m, fids, vv, uv).lines| == |fids|
      && forall k :: 0 <= k < |fids| ==>
           && Mapped(Corners(m, fids[k]), vv) && Mapped(UvCorners(m, fids[k]), uv)
           && MaterialFaces(m, fids, vv, uv).lines[k] == MaterialFaceLine(Corners(m, fids[k]), UvCorners(m, fids[k]), vv, uv)
  {
    if fids != [] {
      MaterialFacesComplete(m, fids[1..], vv, uv);
      assert forall f :: f in fids <==> f == fids[0] || f in fids[1..];
    }
  }

  /**
   * Writing the remaining faces fails, with .at's error, exactly when some
   * corner is not a numbered vertex; otherwise face k's line is "f<tab>a b c".
   */
  lemma {:induction false} PlainFacesComplete(m: Mesh, fids: seq<int>, vv: map<int, int>)
    ensures PlainFaces(m, fids, vv).err in {"", MAP_AT}
    ensures |PlainFaces(m, fids, vv).lines| <= |fids|
    ensures PlainFaces(m, fids, vv).err == "" <==> forall f :: f in fids ==> Mapped(Corners(m, f), vv)
    ensures PlainFaces(m, fids, vv).err == "" ==>
      && |PlainFaces(m, fids, vv).lines| == |fids|
      && forall k :: 0 <= k < |fids| ==>
           Mapped(Corners(m, fids[k]), vv) && PlainFaces(m, fids, vv).lines[k] == PlainFaceLine(Corners(m, fids[k]), vv)
  {
    if fids != [] {
      PlainFacesComplete(m, fids[1..], vv);
      assert forall f :: f in fids <==> f == fids[0] || f in fids[1..];
    }
  }

  /**
   * Every material block opens with a comment giving the material's uv
   * count, its uv lines in ascending uv id order, two blank lines, the face
   * comment and usemtl.
   */
  lemma MaterialBlockHead(m: Mesh, fname: string, mid: int, vv: map<int, int>)
    ensures |MaterialBlock(m, fname, mid, vv).lines| >= |Uvs(m, mid)| + 5
    ensures MaterialBlock(m, fname, mid, vv).lines[0] == UvComment(MaterialName(fname, mid), |Uvs(m, mid)|)
    ensures forall i :: 0 <= i < |Uvs(m, mid)| ==>
      MaterialBlock(m, fname, mid, vv).lines[1 + i] == UvLine(Uv(m, mid, Sort(Uvs(m, mid))[i]))
    ensures MaterialBlock(m, fname, mid, vv).lines[|Uvs(m, mid)| + 1..|Uvs(m, mid)| + 5] ==
      [Blank, Blank, MeshComment(MaterialName(fname, mid), |MaterialFaceIds(m, mid)|), UseMtl(MaterialName(fname, mid))]
  {
    UvLinesAt(m, mid, Sort(Uvs(m, mid)));
  }

  /**
   * The faces of a material whose faces have their corners among the
   * numbered vertices and their texture corners among the material's uv ids
   * are all written, one "f" line per face in ascending face id order, and
   * nothing follows them in the block.
   */
  lemma MaterialBlockFaces(m: Mesh, fname: string, mid: int, vv: map<int, int>)
    requires Distinct(Uvs(m, mid)) && Distinct(MaterialFaceIds(m, mid))
    requires forall f :: f in MaterialFaceIds(m, mid) ==> Mapped(Corners(m, f), vv) && CornersIn(UvCorners(m, f), Uvs(m, mid))
    ensures MaterialBlock(m, fname, mid, vv).err == ""
    ensures |MaterialBlock(m, fname, mid, vv).lines| == |Uvs(m, mid)| + 5 + |MaterialFaceIds(m, mid)|
    ensures StrictlyAscending(Sort(MaterialFaceIds(m, mid)))
    ensures forall k :: 0 <= k < |MaterialFaceIds(m, mid)| ==>
      Mapped(Corners(m, Sort(MaterialFaceIds(m, mid))[k]), vv)
    ensures forall k :: 0 <= k < |MaterialFaceIds(m, mid)| ==>
      Mapped(UvCorners(m, Sort(MaterialFaceIds(m, mid))[k]), OneBased(Sort(Uvs(m, mid))))
    ensures forall k :: 0 <= k < |MaterialFaceIds(m, mid)| ==>
      MaterialBlock(m, fname, mid, vv).lines[|Uvs(m, mid)| + 5 + k] ==
        MaterialFaceLine(Corners(m, Sort(MaterialFaceIds(m, mid))[k]), UvCorners(m, Sort(MaterialFaceIds(m, mid))[k]),
                         vv, OneBased(Sort(Uvs(m, mid))))
  {
    var ids, fids := Sort(Uvs(m, mid)), Sort(MaterialFaceIds(m, mid));
    var uv := OneBased(ids);
    UvNumbering(m, mid);
    SortElements(MaterialFaceIds(m, mid));
    SortStrict(MaterialFaceIds(m, mid));
    forall f | f in fids
      ensures Mapped(Corners(m, f), vv) && Mapped(UvCorners(m, f), uv)
    {
      assert f in MaterialFaceIds(m, mid);
      assert CornersIn(UvCorners(m, f), Uvs(m, mid));
    }
    MaterialFacesComplete(m, fids, vv, uv);
    var fo := MaterialFaces(m, fids, vv, uv);
    assert fo.err == "" && |fo.lines| == |fids|;
    BlockFaceLines(m, fname, mid, vv);
    assert MaterialBlock(m, fname, mid, vv).err == fo.err;
  }

  /** A material block ends with the lines of its faces. */
  lemma BlockFaceLines(m: Mesh, fname: string, mid: int, vv: map<int, int>)
    ensures var f := MaterialFaces(m, Sort(MaterialFaceIds(m, mid)), vv, OneBased(Sort(Uvs(m, mid))));
      forall k :: 0 <= k < |f.lines| ==> MaterialBlock(m, fname, mid, vv).lines[|Uvs(m, mid)| + 5 + k] == f.lines[k]
  {
    var name := MaterialName(fname, mid);
    var ids := Sort(Uvs(m, mid));
    var f := MaterialFaces(m, Sort(MaterialFaceIds(m, mid)), vv, OneBased(ids));
    var uvl := UvLines(m, mid, ids);
    assert |uvl| == |Uvs(m, mid)|;
    var r := BlockLines(UvComment(name, |Uvs(m, mid)|), uvl, MeshComment(name, |MaterialFaceIds(m, mid)|), UseMtl(name), f.lines);
    assert MaterialBlock(m, fname, mid, vv).lines == r;
  }

  /**
   * The remainder block of faces listed once with their corners among the
   * numbered vertices: nothing when there are none, otherwise the face
   * comment and usemtl for the pseudo material, then one "f<tab>a b c" line per
   * face in ascending face id order.
   */
  lemma RemainderLayout(m: Mesh, fname: string, pmid: int, rem: seq<int>, vv: map<int, int>)
    requires Distinct(rem)
    requires forall f :: f in rem ==> Mapped(Corners(m, f), vv)
    ensures RemainderBlock(m, fname, pmid, rem, vv).err == ""
    ensures rem == [] ==> RemainderBlock(m, fname, pmid, rem, vv).lines == []
    ensures rem != [] ==> |RemainderBlock(m, fname, pmid, rem, vv).lines| == 2 + |rem|
    ensures rem != [] ==> (RemainderBlock(m, fname, pmid, rem, vv).lines[..2] ==
                           [MeshComment(MaterialName(fname, pmid), |rem|), UseMtl(MaterialName(fname, pmid))])
    ensures StrictlyAscending(Sort(rem))
    ensures forall k :: 0 <= k < |rem| ==>
      Mapped(Corners(m, Sort(rem)[k]), vv) && RemainderBlock(m, fname, pmid, rem, vv).lines[2 + k] == PlainFaceLine(Corners(m, Sort(rem)[k]), vv)
  {
    RemainingFacesSorted(m, rem, vv);
    if rem != [] {
      RemainderLinesLayout(m, MaterialName(fname, pmid), rem, vv);
    }
  }

  /** RemainderLayout for the block's lines under any material name. */
  lemma RemainderLinesLayout(m: Mesh, name: string, rem: seq<int>, vv: map<int, int>)
    requires Distinct(rem) && rem != []
    requires forall f :: f in rem ==> Mapped(Corners(m, f), vv)
    ensures var lines := [MeshComment(name, |rem|), UseMtl(name)] + PlainFaces(m, Sort(rem), vv).lines;
      && PlainFaces(m, Sort(rem), vv).err == ""
      && |lines| == 2 + |rem|
      && lines[..2] == [MeshComment(name, |rem|), UseMtl(name)]
      && forall k :: 0 <= k < |rem| ==>
           Mapped(Corners(m, Sort(rem)[k]), vv) && lines[2 + k] == PlainFaceLine(Corners(m, Sort(rem)[k]), vv)
  {
    RemainingFacesSorted(m, rem, vv);
    var head, f := [MeshComment(name, |rem|), UseMtl(name)], PlainFaces(m, Sort(rem), vv);
    assert forall k :: 0 <= k < |rem| ==> (head + f.lines)[2 + k] == f.lines[k];
  }

  /** The faces left over, listed once with numbered corners, sorted and written one "f<tab>a b c" line each. */
  lemma RemainingFacesSorted(m: Mesh, rem: seq<int>, vv: map<int, int>)
    requires Distinct(rem)
    requires forall f :: f in rem ==> Mapped(Corners(m, f), vv)
    ensures StrictlyAscending(Sort(rem))
    ensures PlainFaces(m, Sort(rem), vv).err == "" && |PlainFaces(m, Sort(rem), vv).lines| == |rem|
    ensures forall k :: 0 <= k < |rem| ==>
      Mapped(Corners(m, Sort(rem)[k]), vv) && PlainFaces(m, Sort(rem), vv).lines[k] == PlainFaceLine(Corners(m, Sort(rem)[k]), vv)
  {
    SortElements(rem);
    SortStrict(rem);
    PlainFacesComplete(m, Sort(rem), vv);
  }

  /** In a valid mesh every face's corners are numbered vertices. */
  lemma CornersNumbered(m: Mesh)
    requires Valid(m)
    ensures forall f :: f in m.faces ==> Mapped(Corners(m, f), OneBased(Sort(m.vtxIds)))
  {
    VertexNumbering(m);
  }

  /** A valid mesh's material block is written whole. */
  lemma BlockComplete(m: Mesh, fname: string, mid: int)
    requires Valid(m) && mid in m.materialIds
    ensures MaterialBlock(m, fname, mid, OneBased(Sort(m.vtxIds))).err == ""
  {
    CornersNumbered(m);
    assert forall f :: f in MaterialFaceIds(m, mid) ==> f in m.faces && UvCorners(m, f) == m.faceUVs[f];
    MaterialBlockFaces(m, fname, mid, OneBased(Sort(m.vtxIds)));
  }

  /** For a valid mesh the whole OBJ file is written: every lookup succeeds. */
  lemma ObjComplete(m: Mesh, fname: string, matfile: string)
    requires Valid(m)
    ensures ObjText(m, fname, matfile).err == ""
  {
    var vv := OneBased(Sort(m.vtxIds));
    var bs := Blocks(m, fname, m.materialIds, vv);
    forall i | 0 <= i < |bs|
      ensures bs[i].err == ""
    {
      BlockComplete(m, fname, m.materialIds[i]);
    }
    ConcatError(bs);
    RemainingExactly(m);
    CornersNumbered(m);
    RemainderLayout(m, fname, PseudoId(m.materialIds, NumMats(m)), Remaining(m), vv);
  }

  /**
   * As written, pmid can name a material of the mesh: materialIds() is an
   * unordered set, and when its last visited id is not its largest, pmid is
   * another material's id. Here the ids are visited as 1, 0, so pmid is 1,
   * and a valid mesh with a face outside both materials has its leftover
   * faces written under material 1's name, which the material file then
   * declares a second time.
   */
  lemma PseudoIdClash()
    ensures exists m: Mesh :: Valid(m) && Remaining(m) != [] && PseudoId(m.materialIds, NumMats(m)) in m.materialIds
  {
    var p := Vec3(0.0, 0.0, 0.0);
    var m := Mesh([0, 1, 2], map[0 := p, 1 := p, 2 := p], [0], map[0 := Tri(0, 1, 2)], map[], map[],
                  [1, 0], map[], map[], map[], map[]);
    assert CornersIn(Tri(0, 1, 2), m.vtxIds);
    ValidWithoutMaterialFaces(m);
    assert m.faces[0] in Remaining(m);
    assert PseudoId(m.materialIds, NumMats(m)) == m.materialIds[0];
  }

  /** A mesh whose materials hold no faces is valid as soon as its ids are, and every face is left over. */
  lemma ValidWithoutMaterialFaces(m: Mesh)
    requires m.faceMat == map[] && m.matFaces == map[] && m.matUVs == map[]
    requires Distinct(m.vtxIds) && Distinct(m.faces) && Distinct(m.materialIds)
    requires forall mid :: mid in m.materialIds ==> mid >= 0
    requires forall v :: v in m.vtxIds ==> v in m.vtx
    requires forall f :: f in m.faces ==> f in m.fvidxs && CornersIn(m.fvidxs[f], m.vtxIds)
    ensures Valid(m)
    ensures forall f :: f in Remaining(m) <==> f in m.faces
  {
    RemainingExactly(m);
  }

  /**
   * The pseudo material id as evidently intended: one more than the largest
   * material id visited (0 when none was), whatever the visiting order.
   */
  function FreshPseudoId(mids: seq<int>, n: nat): int
    requires n <= |mids|
  {
    if n == 0 then 0
    else
      var before := FreshPseudoId(mids, n - 1);
      if mids[n - 1] + 1 > before then mids[n - 1] + 1 else before
  }

  /** The corrected pmid names no visited material, in any visiting order. */
  lemma {:induction false} FreshPseudoIdFresh(mids: seq<int>, n: nat)
    requires n <= |mids|
    ensures FreshPseudoId(mids, n) >= 0
    ensures forall i :: 0 <= i < n ==> mids[i] < FreshPseudoId(mids, n)
  {
    if n > 0 {
      FreshPseudoIdFresh(mids, n - 1);
    }
  }

  /** When the ids are visited in ascending order, the code as written already gives the corrected pmid. */
  lemma {:induction false} FreshPseudoIdAscending(mids: seq<int>, n: nat)
    requires n <= |mids| && StrictlyAscending(mids)
    requires forall i :: 0 <= i < |mids| ==> mids[i] >= 0
    ensures FreshPseudoId(mids, n) == PseudoId(mids, n)
  {
    if n > 1 {
      FreshPseudoIdAscending(mids, n - 1);
      assert mids[n - 2] < mids[n - 1];
    }
  }

  /**
   * The material file is named after the OBJ file with its extension
   * replaced by "mtl", and both files name each material the same way, so
   * every usemtl in the OBJ file names a newmtl of the material file.
   */
  lemma MaterialNamesAgree(fname: string, mid: int)
    ensures MaterialName(ReplaceExtension(fname, "mtl"), mid) == MaterialName(fname, mid)
  {
    var matfile := ReplaceExtension(fname, "mtl");
    StemOfFilename(matfile);
    StemOfFilename(fname);
    MtlStem(fname);
  }

  lemma MtlStem(fname: string)
    ensures Stem(ReplaceExtension(fname, "mtl")) == Stem(fname)
  {
    var e := "mtl";
    assert |e| == 3 && e[0] == 'm' && e[1] == 't' && e[2] == 'l';
    ReplaceExtensionStem(fname, e);
  }

  /**
   * For a valid mesh the faces the materials claim and the faces left over
   * add up to the mesh's faces, so the material file declares the pseudo
   * material (nfaces < numFaces) exactly when the OBJ file uses it
   * (remfids is not empty).
   */
  lemma PseudoMaterialAgrees(m: Mesh)
    requires Valid(m)
    ensures FaceTotal(m, m.materialIds, NumMats(m)) + |Remaining(m)| == NumFaces(m)
    ensures FaceTotal(m, m.materialIds, NumMats(m)) < NumFaces(m) <==> Remaining(m) != []
  {
    var mids := m.materialIds;
    assert forall i :: 0 <= i < |mids| ==> mids[i] in mids;
    ClaimedCount(m, mids);
  }

  /**
   * Entries written one after another stop at the first throw and carry its
   * text; when none throws, every entry's lines and images are kept.
   */
  lemma {:induction false} MtlConcatCaught(es: seq<Mtl>)
    ensures MtlConcat(es).caught.None? <==> forall i :: 0 <= i < |es| ==> es[i].caught.None?
    ensures MtlConcat(es).caught.Some? ==>
      exists i :: 0 <= i < |es| && es[i].caught == MtlConcat(es).caught && forall j :: 0 <= j < i ==> es[j].caught.None?
  {
    if es != [] {
      MtlConcatCaught(es[1..]);
      if es[0].caught.None? {
        assert forall i :: 1 <= i < |es| ==> es[i] == es[1..][i - 1];
        if MtlConcat(es).caught.Some? {
          var i :| 0 <= i < |es[1..]| && es[1..][i].caught == MtlConcat(es).caught && forall j :: 0 <= j < i ==> es[1..][j].caught.None?;
          assert es[i + 1].caught == MtlConcat(es).caught;
          assert forall j :: 0 <= j < i + 1 ==> es[j].caught.None?;
        }
      }
    }
  }

  /** When no entry throws, the entries' lines and images are all written. */
  lemma {:induction false} MtlConcatContents(es: seq<Mtl>)
    requires forall i :: 0 <= i < |es| ==> es[i].caught.None?
    ensures forall i, l :: 0 <= i < |es| && l in es[i].lines ==> l in MtlConcat(es).lines
    ensures forall p :: p in MtlConcat(es).images <==> exists i :: 0 <= i < |es| && p in es[i].images
  {
    if es != [] {
      MtlConcatContents(es[1..]);
      assert forall i :: 1 <= i < |es| ==> es[i] == es[1..][i - 1];
      forall p | p in MtlConcat(es).images
        ensures exists i :: 0 <= i < |es| && p in es[i].images
      {
        if p !in es[0].images {
          var i :| 0 <= i < |es[1..]| && p in es[1..][i].images;
          assert p in es[i + 1].images;
        }
      }
    }
  }


  /** Writing the image of material mid's texture throws. */
  predicate Throws(m: Mesh, matfile: string, ext: string, mid: int, thrown: map<string, string>)
  {
    !Images.Empty(Texture(m, mid)) && ImageFile(matfile, MaterialName(matfile, mid), ext) in thrown
  }

  /**
   * The material loop is cut short exactly when writing some material's
   * image throws, and then by the first such material, with that exception's
   * text.
   */
  lemma MtlEntriesThrow(m: Mesh, matfile: string, ext: string, mids: seq<int>, thrown: map<string, string>)
    ensures MtlEntries(m, matfile, ext, mids, thrown).caught.None? <==>
      forall i :: 0 <= i < |mids| ==> !Throws(m, matfile, ext, mids[i], thrown)
    ensures MtlEntries(m, matfile, ext, mids, thrown).caught.Some? ==>
      exists i :: 0 <= i < |mids| && Throws(m, matfile, ext, mids[i], thrown)
        && MtlEntries(m, matfile, ext, mids, thrown).caught == Some(thrown[ImageFile(matfile, MaterialName(matfile, mids[i]), ext)])
        && forall j :: 0 <= j < i ==> !Throws(m, matfile, ext, mids[j], thrown)
  {
    var es := Entries(m, matfile, ext, mids, thrown);
    EntriesThrow(m, matfile, ext, mids, thrown);
    MtlConcatCaught(es);
    if MtlConcat(es).caught.Some? {
      var i :| 0 <= i < |es| && es[i].caught == MtlConcat(es).caught && forall j :: 0 <= j < i ==> es[j].caught.None?;
      assert Throws(m, matfile, ext, mids[i], thrown);
    }
  }

  /** Entry by entry: the entries that throw are those of the materials that throw. */
  lemma EntriesThrow(m: Mesh, matfile: string, ext: string, mids: seq<int>, thrown: map<string, string>)
    ensures forall i :: 0 <= i < |mids| ==>
      (Entries(m, matfile, ext, mids, thrown)[i].caught.Some? <==> Throws(m, matfile, ext, mids[i], thrown))
    ensures forall i :: 0 <= i < |mids| && Throws(m, matfile, ext, mids[i], thrown) ==>
      Entries(m, matfile, ext, mids, thrown)[i].caught == Some(thrown[ImageFile(matfile, MaterialName(matfile, mids[i]), ext)])
  {
    forall i | 0 <= i < |mids|
      ensures Entry(m, matfile, ext, mids[i], thrown).caught.Some? <==> Throws(m, matfile, ext, mids[i], thrown)
      ensures Throws(m, matfile, ext, mids[i], thrown) ==>
        Entry(m, matfile, ext, mids[i], thrown).caught == Some(thrown[ImageFile(matfile, MaterialName(matfile, mids[i]), ext)])
    {
      EntryThrows(m, matfile, ext, mids[i], thrown);
    }
  }

  /** One material's entry throws exactly when its texture is written to an image that throws. */
  lemma EntryThrows(m: Mesh, matfile: string, ext: string, mid: int, thrown: map<string, string>)
    ensures Entry(m, matfile, ext, mid, thrown).caught.Some? <==> Throws(m, matfile, ext, mid, thrown)
    ensures Throws(m, matfile, ext, mid, thrown) ==>
      Entry(m, matfile, ext, mid, thrown).caught == Some(thrown[ImageFile(matfile, MaterialName(matfile, mid), ext)])
  {
  }

  /**
   * When no image throws, every listed material is declared with newmtl and
   * the images written are exactly those of the materials with a texture.
   */
  lemma MtlEntriesWritten(m: Mesh, matfile: string, ext: string, mids: seq<int>, thrown: map<string, string>)
    requires forall i :: 0 <= i < |mids| ==> !Throws(m, matfile, ext, mids[i], thrown)
    ensures forall i :: 0 <= i < |mids| ==> NewMtl(MaterialName(matfile, mids[i])) in MtlEntries(m, matfile, ext, mids, thrown).lines
    ensures forall p :: p in MtlEntries(m, matfile, ext, mids, thrown).images <==>
      exists i :: 0 <= i < |mids| && !Images.Empty(Texture(m, mids[i])) && p == ImageFile(matfile, MaterialName(matfile, mids[i]), ext)
  {
    var es := Entries(m, matfile, ext, mids, thrown);
    MtlConcatContents(es);
    forall i | 0 <= i < |mids|
      ensures NewMtl(MaterialName(matfile, mids[i])) in es[i].lines
    {
      assert es[i].lines[0] == NewMtl(MaterialName(matfile, mids[i]));
    }
  }

  /**
   * The material file, when written without a throw, declares each
   * material of the mesh, and the pseudo material when the materials'
   * faces fall short of the mesh's.
   */
  lemma MtlTextDeclares(m: Mesh, matfile: string, asPNG: bool, thrown: map<string, string>)
    requires MtlText(m, matfile, asPNG, thrown).caught.None?
    ensures forall i :: 0 <= i < NumMats(m) ==>
      NewMtl(MaterialName(matfile, m.materialIds[i])) in MtlText(m, matfile, asPNG, thrown).lines
    ensures FaceTotal(m, m.materialIds, NumMats(m)) < NumFaces(m) ==>
      NewMtl(MaterialName(matfile, PseudoId(m.materialIds, NumMats(m)))) in MtlText(m, matfile, asPNG, thrown).lines
  {
    var e := MtlEntries(m, matfile, ImageExt(asPNG), m.materialIds, thrown);
    var r := MtlText(m, matfile, asPNG, thrown);
    MtlEntriesThrow(m, matfile, ImageExt(asPNG), m.materialIds, thrown);
    MtlEntriesWritten(m, matfile, ImageExt(asPNG), m.materialIds, thrown);
    assert forall l :: l in e.lines ==> l in r.lines;
    if FaceTotal(m, m.materialIds, NumMats(m)) < NumFaces(m) {
      assert r.lines[|r.lines| - 2] == NewMtl(MaterialName(matfile, PseudoId(m.materialIds, NumMats(m))));
    }
  }

  /**
   * The material file, when written without a throw, declares every
   * material the OBJ file of the same stem uses: each material of the mesh
   * and, when faces are left over, the pseudo material.
   */
  lemma MtlDeclaresObjMaterials(m: Mesh, fname: string, asPNG: bool, thrown: map<string, string>)
    requires Valid(m)
    requires MtlText(m, ReplaceExtension(fname, "mtl"), asPNG, thrown).caught.None?
    ensures forall mid :: mid in m.materialIds ==>
      NewMtl(MaterialName(fname, mid)) in MtlText(m, ReplaceExtension(fname, "mtl"), asPNG, thrown).lines
    ensures Remaining(m) != [] ==>
      NewMtl(MaterialName(fname, PseudoId(m.materialIds, NumMats(m)))) in MtlText(m, ReplaceExtension(fname, "mtl"), asPNG, thrown).lines
  {
    var matfile := ReplaceExtension(fname, "mtl");
    var mids := m.materialIds;
    MtlTextDeclares(m, matfile, asPNG, thrown);
    forall mid | mid in mids
      ensures NewMtl(MaterialName(fname, mid)) in MtlText(m, matfile, asPNG, thrown).lines
    {
      var i :| 0 <= i < |mids| && mids[i] == mid;
      MaterialNamesAgree(fname, mid);
    }
    PseudoMaterialAgrees(m);
    MaterialNamesAgree(fname, PseudoId(mids, NumMats(m)));
  }

  // ---------------------------------------------------------------------------
  // The exporter.

  /** The material file beside the OBJ file: its name with the extension replaced by "mtl". */
  function MtlFile(fname: string): string
  {
    ReplaceExtension(fname, "mtl")
  }

  /** The material file's name as doSave passes it on: "" when the mesh has no materials. */
  function MatFile(m: Mesh, fname: string): string
  {
    if HasMaterials(m) then MtlFile(fname) else ""
  }

  /** The string writeMaterialFile returns: the caught exception's text, or "" when none was caught. */
  function MtlError(r: Mtl): string
  {
    if r.caught.Some? then r.caught.value else ""
  }

  /**
   * The outcome of doSave, given which paths can be opened for writing
   * (`writable`) and which image writes throw (`thrown`): whether it
   * succeeded, the error it sets when not, the files it creates, and the
   * text of the material and OBJ files (empty when a file is not opened).
   */
  datatype Saved = Saved(ok: bool, err: string, created: set<string>, mtl: seq<Line>, obj: seq<Line>)

  function SaveSpec(m: Mesh, fname: string, asPNG: bool, writable: set<string>, thrown: map<string, string>): Saved
  {
    SaveOutcome(m, fname, writable, MtlText(m, MtlFile(fname), asPNG, thrown), ObjText(m, fname, MatFile(m, fname)))
  }

  /** The outcome of doSave once the material file's result r and the OBJ text o are known. */
  function SaveOutcome(m: Mesh, fname: string, writable: set<string>, r: Mtl, o: Out): Saved
  {
    var mcreated := if HasMaterials(m) then MtlCreated(MtlFile(fname), writable, r) else {};
    var mtl := if HasMaterials(m) && MtlFile(fname) in writable then r.lines else [];
    if HasMaterials(m) && MtlError(r) != "" then Saved(false, MTL_FAILED + MtlError(r), mcreated, mtl, [])
    else
      Saved(o.err == "", if o.err == "" then "" else WRITE_FAILED + o.err,
            mcreated + (if fname in writable then {fname} else {}), mtl,
            if fname in writable then o.lines else [])
  }

  /**
   * A save's result, the error after it (given the one before) and the
   * regular files after it (given those before) are as the outcome s says;
   * a successful save leaves the error as it was.
   */
  predicate Matches(s: Saved, ok: bool, mtl: seq<Line>, obj: seq<Line>, err: string, errBefore: string,
                    regular: set<string>, regularBefore: set<string>)
  {
    && ok == s.ok && mtl == s.mtl && obj == s.obj
    && regular == regularBefore + s.created
    && err == (if ok then errBefore else s.err)
  }

  /** The outcome of doSave when writeMaterialFile returned r, a failure. */
  lemma SaveSpecAborts(m: Mesh, fname: string, asPNG: bool, writable: set<string>, thrown: map<string, string>, r: Mtl)
    requires HasMaterials(m) && r == MtlText(m, MtlFile(fname), asPNG, thrown) && MtlError(r) != ""
    ensures forall o :: SaveSpec(m, fname, asPNG, writable, thrown) == SaveOutcome(m, fname, writable, r, o)
  {
  }

  /** The outcome of doSave when writeMaterialFile (if called) returned r without a failure and the OBJ text is o. */
  lemma SaveSpecIs(m: Mesh, fname: string, asPNG: bool, writable: set<string>, thrown: map<string, string>, r: Mtl, o: Out)
    requires HasMaterials(m) ==> r == MtlText(m, MtlFile(fname), asPNG, thrown) && MtlError(r) == ""
    requires o == ObjText(m, fname, MatFile(m, fname))
    ensures SaveSpec(m, fname, asPNG, writable, thrown) == SaveOutcome(m, fname, writable, r, o)
  {
  }

  /**
   * When writing some material's image throws (with a message), doSave
   * fails with the first such message behind "Unable to write OBJ .mtl
   * file! ", and the OBJ file is not written.
   */
  lemma ImageThrowAborts(m: Mesh, fname: string, asPNG: bool, writable: set<string>, thrown: map<string, string>)
    requires forall p :: p in thrown ==> thrown[p] != ""
    requires exists i :: 0 <= i < NumMats(m) && Throws(m, MtlFile(fname), ImageExt(asPNG), m.materialIds[i], thrown)
    ensures !SaveSpec(m, fname, asPNG, writable, thrown).ok
    ensures SaveSpec(m, fname, asPNG, writable, thrown).obj == []
    ensures exists i :: (0 <= i < NumMats(m) && Throws(m, MtlFile(fname), ImageExt(asPNG), m.materialIds[i], thrown)
                         && SaveSpec(m, fname, asPNG, writable, thrown).err ==
                              MTL_FAILED + thrown[ImageFile(MtlFile(fname), MaterialName(MtlFile(fname), m.materialIds[i]), ImageExt(asPNG))])
  {
    var mf, ext := MtlFile(fname), ImageExt(asPNG);
    var r := MtlText(m, mf, asPNG, thrown);
    var e := MtlEntries(m, mf, ext, m.materialIds, thrown);
    MtlEntriesThrow(m, mf, ext, m.materialIds, thrown);
    var i :| 0 <= i < NumMats(m) && Throws(m, mf, ext, m.materialIds[i], thrown)
               && e.caught == Some(thrown[ImageFile(mf, MaterialName(mf, m.materialIds[i]), ext)]);
    assert r.caught == e.caught;
    SaveSpecAborts(m, fname, asPNG, writable, thrown, r);
    assert SaveSpec(m, fname, asPNG, writable, thrown) == SaveOutcome(m, fname, writable, r, Out([], ""));
  }

  /**
   * A valid mesh whose images are all written is saved: doSave succeeds,
   * and the OBJ file, when it can be opened, holds the whole OBJ text.
   */
  lemma ValidSaveSucceeds(m: Mesh, fname: string, asPNG: bool, writable: set<string>, thrown: map<string, string>)
    requires Valid(m)
    requires forall i :: 0 <= i < NumMats(m) ==> !Throws(m, MtlFile(fname), ImageExt(asPNG), m.materialIds[i], thrown)
    ensures SaveSpec(m, fname, asPNG, writable, thrown).ok
    ensures fname in writable ==> fname in SaveSpec(m, fname, asPNG, writable, thrown).created
    ensures fname in writable ==> SaveSpec(m, fname, asPNG, writable, thrown).obj == ObjText(m, fname, MatFile(m, fname)).lines
  {
    assert MtlText(m, MtlFile(fname), asPNG, thrown).caught.None? by {
      MtlEntriesThrow(m, MtlFile(fname), ImageExt(asPNG), m.materialIds, thrown);
    }
    ObjComplete(m, fname, MatFile(m, fname));
    SaveSucceedsWhen(m, fname, asPNG, writable, thrown);
  }

  /** doSave succeeds when the material file (if any) reports no error and the OBJ text is complete. */
  lemma SaveSucceedsWhen(m: Mesh, fname: string, asPNG: bool, writable: set<string>, thrown: map<string, string>)
    requires HasMaterials(m) ==> MtlError(MtlText(m, MtlFile(fname), asPNG, thrown)) == ""
    requires ObjText(m, fname, MatFile(m, fname)).err == ""
    ensures SaveSpec(m, fname, asPNG, writable, thrown).ok
    ensures fname in writable ==> fname in SaveSpec(m, fname, asPNG, writable, thrown).created
    ensures fname in writable ==> SaveSpec(m, fname, asPNG, writable, thrown).obj == ObjText(m, fname, MatFile(m, fname)).lines
  {
  }

  /**
   * A written OBJ file names the material library on its third line
   * exactly when the mesh has materials.
   */
  lemma MtlLibListed(m: Mesh, fname: string, asPNG: bool, writable: set<string>, thrown: map<string, string>)
    requires fname in writable && SaveSpec(m, fname, asPNG, writable, thrown).ok
    ensures |SaveSpec(m, fname, asPNG, writable, thrown).obj| > 2 && SaveSpec(m, fname, asPNG, writable, thrown).obj[2].toks != []
    ensures SaveSpec(m, fname, asPNG, writable, thrown).obj[2].toks[0] == W("mtllib") <==> HasMaterials(m)
    ensures HasMaterials(m) ==> SaveSpec(m, fname, asPNG, writable, thrown).obj[2] == MtlLib(MtlFile(fname))
  {
    MtlFileNamed(fname);
    ObjNamesLibrary(m, fname, MatFile(m, fname));
  }

  /** The material file's name is never empty. */
  lemma MtlFileNamed(fname: string)
    ensures MtlFile(fname) != ""
  {
    ReplaceExtensionGives(fname, "mtl");
  }

  /** The OBJ text's third line is an mtllib line, naming the material library, exactly when there is one. */
  lemma ObjNamesLibrary(m: Mesh, fname: string, matfile: string)
    ensures |ObjText(m, fname, matfile).lines| > 2 && ObjText(m, fname, matfile).lines[2].toks != []
    ensures ObjText(m, fname, matfile).lines[2].toks[0] == W("mtllib") <==> matfile != ""
    ensures matfile != "" ==> ObjText(m, fname, matfile).lines[2] == MtlLib(matfile)
  {
    var head := ObjHead(m, matfile);
    var pre := head + PositionLines(m, [K("v")], Sort(m.vtxIds)) + [Blank];
    assert pre[2] == head[2];
    var b := MaterialBlocks(m, fname, m.materialIds, OneBased(Sort(m.vtxIds)));
    assert (pre + b.lines)[2] == head[2];
  }

  /** The material file's text after doSave, when the mesh has materials and the file can be opened. */
  lemma SaveSpecMtl(m: Mesh, fname: string, asPNG: bool, writable: set<string>, thrown: map<string, string>)
    requires HasMaterials(m) && MtlFile(fname) in writable
    ensures SaveSpec(m, fname, asPNG, writable, thrown).mtl == MtlText(m, MtlFile(fname), asPNG, thrown).lines
  {
  }

  /**
   * After a successful save of a valid mesh with materials, the material
   * file (when it can be opened) declares every material the OBJ file
   * uses, provided exceptions carry a message.
   */
  lemma SavedMaterialsDeclared(m: Mesh, fname: string, asPNG: bool, writable: set<string>, thrown: map<string, string>)
    requires Valid(m) && HasMaterials(m) && MtlFile(fname) in writable
    requires forall p :: p in thrown ==> thrown[p] != ""
    requires SaveSpec(m, fname, asPNG, writable, thrown).ok
    ensures forall mid :: mid in m.materialIds ==> NewMtl(MaterialName(fname, mid)) in SaveSpec(m, fname, asPNG, writable, thrown).mtl
    ensures Remaining(m) != [] ==>
      NewMtl(MaterialName(fname, PseudoId(m.materialIds, NumMats(m)))) in SaveSpec(m, fname, asPNG, writable, thrown).mtl
  {
    SavedMtlComplete(m, fname, asPNG, writable, thrown);
    SaveSpecMtl(m, fname, asPNG, writable, thrown);
    MtlDeclaresObjMaterials(m, fname, asPNG, thrown);
  }

  /**
   * When exceptions carry a message, a successful save of a mesh with
   * materials wrote the whole material file: no image write threw.
   */
  lemma SavedMtlComplete(m: Mesh, fname: string, asPNG: bool, writable: set<string>, thrown: map<string, string>)
    requires HasMaterials(m)
    requires forall p :: p in thrown ==> thrown[p] != ""
    requires SaveSpec(m, fname, asPNG, writable, thrown).ok
    ensures MtlText(m, MtlFile(fname), asPNG, thrown).caught.None?
  {
    var r := MtlText(m, MtlFile(fname), asPNG, thrown);
    assert MtlError(r) == "";
    MtlEntriesThrow(m, MtlFile(fname), ImageExt(asPNG), m.materialIds, thrown);
  }

  /**
   * OBJExporter: an IOFormats registry holding "obj", and whether texture
   * images are written as PNG (otherwise JPEG).
   */
  class Exporter {
    const formats: IOFormats.Formats
    const asPNG: bool

    ghost predicate Valid()
      reads formats
    {
      formats.Valid()
    }

    /** The constructor registers "obj". */
    constructor (asPNG: bool)
      ensures Valid() && fresh(formats) && this.asPNG == asPNG
      ensures formats.exts == ["obj"] && formats.descs == map["obj" := OBJ_DESC] && formats.err == ""
    {
      var f := new IOFormats.Formats();
      assert Trim(OBJ_DESC) == OBJ_DESC;
      var _ := IOFormats.RegisterWord(f, "obj", OBJ_DESC);
      formats := f;
      this.asPNG := asPNG;
    }

    /**
     * doSave: the material file first when the mesh has materials (a
     * failure there ends the save), then the OBJ file. Opening a path not
     * in `writable` fails silently, as an unopened stream swallows its text;
     * `thrown` gives the image writes that throw and their messages.
     */
    method DoSave(m: Mesh, fname: string, fs: Files.FileSystem, writable: set<string>, thrown: map<string, string>)
      returns (ok: bool, mtl: seq<Line>, obj: seq<Line>)
      requires Valid()
      modifies formats, fs
      ensures Valid() && formats.exts == old(formats.exts) && formats.descs == old(formats.descs)
      ensures Matches(SaveSpec(m, fname, asPNG, writable, thrown), ok, mtl, obj, formats.err, old(formats.err), fs.regular, old(fs.regular))
    {
      var matfile := "";
      var mr := Mtl([], None, []);
      if |m.materialIds| > 0 {
        matfile := ReplaceExtension(fname, "mtl");
        mr := WriteMaterialFile(m, matfile, asPNG, thrown);
      }
      var mo := Out([], "");
      if !(|m.materialIds| > 0 && MtlError(mr) != "") {
        mo := WriteObj(m, fname, matfile);
        SaveSpecIs(m, fname, asPNG, writable, thrown, mr, mo);
      } else {
        SaveSpecAborts(m, fname, asPNG, writable, thrown, mr);
      }
      ok, mtl, obj := Commit(m, fname, fs, writable, mr, mo);
    }

    /**
     * doSave's effects once writeMaterialFile has returned r (when called)
     * and the OBJ text o is known: the material file's stage, which ends the
     * save when it failed, then the OBJ file's.
     */
    method Commit(m: Mesh, fname: string, fs: Files.FileSystem, writable: set<string>, r: Mtl, o: Out)
      returns (ok: bool, mtl: seq<Line>, obj: seq<Line>)
      requires Valid()
      modifies formats, fs
      ensures Valid() && formats.exts == old(formats.exts) && formats.descs == old(formats.descs)
      ensures Matches(SaveOutcome(m, fname, writable, r, o), ok, mtl, obj, formats.err, old(formats.err), fs.regular, old(fs.regular))
    {
      var aborted;
      aborted, mtl := MtlStage(m, fname, fs, writable, r);
      if aborted {
        return false, mtl, [];
      }
      ok, obj := ObjStage(fname, fs, writable, o);
    }

    /**
     * The material file's effects once writeMaterialFile has returned r: the
     * files it created, its text when it could be opened, and the abort when
     * it returned an error.
     */
    method MtlStage(m: Mesh, fname: string, fs: Files.FileSystem, writable: set<string>, r: Mtl)
      returns (aborted: bool, mtl: seq<Line>)
      requires Valid()
      modifies formats, fs
      ensures Valid() && formats.exts == old(formats.exts) && formats.descs == old(formats.descs)
      ensures aborted == (HasMaterials(m) && MtlError(r) != "")
      ensures mtl == (if HasMaterials(m) && MtlFile(fname) in writable then r.lines else [])
      ensures fs.regular == old(fs.regular) + (if HasMaterials(m) then MtlCreated(MtlFile(fname), writable, r) else {})
      ensures formats.err == (if aborted then MTL_FAILED + MtlError(r) else old(formats.err))
    {
      aborted, mtl := false, [];
      if |m.materialIds| > 0 {
        var matfile := ReplaceExtension(fname, "mtl");
        fs.CreateEach(MtlCreated(matfile, writable, r));
        if matfile in writable {
          mtl := r.lines;
        }
        var err := if r.caught.Some? then r.caught.value else "";
        if err != "" {
          formats.SetErr(MTL_FAILED + err);
          aborted := true;
        }
      }
    }

    /** The OBJ file's effects once its text o is known: created when it can be opened, and the error caught. */
    method ObjStage(fname: string, fs: Files.FileSystem, writable: set<string>, o: Out) returns (ok: bool, obj: seq<Line>)
      requires Valid()
      modifies formats, fs
      ensures Valid() && formats.exts == old(formats.exts) && formats.descs == old(formats.descs)
      ensures ok == (o.err == "")
      ensures obj == (if fname in writable then o.lines else [])
      ensures fs.regular == old(fs.regular) + (if fname in writable then {fname} else {})
      ensures formats.err == (if ok then old(formats.err) else WRITE_FAILED + o.err)
    {
      obj := [];
      if fname in writable {
        fs.Create(fname);
        obj := o.lines;
      }
      if o.err != "" {
        formats.SetErr(WRITE_FAILED + o.err);
      }
      ok := o.err == "";
    }

    /** MeshExporter::save on an OBJExporter: the filename guards, then doSave. */
    method Save(m: Mesh, fname: string, fs: Files.FileSystem, writable: set<string>, thrown: map<string, string>)
      returns (ok: bool, mtl: seq<Line>, obj: seq<Line>)
      requires Valid()
      modifies formats, fs
      ensures Valid() && formats.exts == old(formats.exts) && formats.descs == old(formats.descs)
      ensures fname == "" ==> formats.err == MeshExporter.EMPTY_FILENAME
      ensures fname != "" && !formats.IsSupported(fname) ==> formats.err == MeshExporter.Unsupported(fname)
      ensures !(fname != "" && formats.IsSupported(fname)) ==> !ok && mtl == [] && obj == [] && fs.regular == old(fs.regular)
      ensures fname != "" && formats.IsSupported(fname) ==>
        Matches(SaveSpec(m, fname, asPNG, writable, thrown), ok, mtl, obj, formats.err, "", fs.regular, old(fs.regular))
    {
      var proceed := MeshExporter.CheckSave(formats, fname);
      if !proceed {
        return false, [], [];
      }
      ok, mtl, obj := DoSave(m, fname, fs, writable, thrown);
    }
  }
}
