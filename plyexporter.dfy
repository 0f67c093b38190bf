/**
 * The PLY writer (src/PLYExporter.cpp): an ASCII Polygon File Format file
 * with a header that declares the vertex and face counts, one line per
 * vertex in vtxIds order, and one line per face whose corners are the
 * vertices' 0-based positions in that order.
 */
module PlyExporter {

  import opened Text
  import opened Remap
  import opened Meshes
  import Files
  import IOFormats
  import MeshExporter

  const PLY_DESC := "Polygon File Format"

  const WRITE_FAILED := "Unable to write PLY file! : "

  const COMMENT := "comment Polygon File Format file produced by r3dio (https://github.com/richeytastic/r3dio)"

  /** The header for nv vertices and nf faces. */
  function Header(nv: nat, nf: nat): (r: seq<Line>)
    ensures |r| == HEADER_LINES
  {
    [ L(0, "ply"),
      L(0, "format ascii 1.0"),
      L(0, COMMENT),
      Line(0, [W("element vertex"), I(nv)]),
      L(0, "property float x"),
      L(0, "property float y"),
      L(0, "property float z"),
      Line(0, [W("element face"), I(nf)]),
      L(0, "property list uchar int vertex_index"),
      L(0, "end_header") ]
  }

  const HEADER_LINES := 10

  predicate Mapped(t: Tri, vmap: map<int, int>)
  {
    t.a in vmap && t.b in vmap && t.c in vmap
  }

  /** "3 i j k": the corners' table entries in winding order. */
  function FaceLine(t: Tri, vmap: map<int, int>): Line
    requires Mapped(t, vmap)
  {
    Line(0, [W("3"), I(vmap[t.a]), I(vmap[t.b]), I(vmap[t.c])])
  }

  /**
   * The lines of the listed faces, up to the first face with a corner the
   * table lacks: there vvmap.at throws and the writing stops.
   */
  function FaceLines(m: Mesh, vmap: map<int, int>, fids: seq<int>): (o: Out)
  {
    if fids == [] then Out([], "")
    else
      var t := Corners(m, fids[0]);
      if !Mapped(t, vmap) then Out([], MAP_AT)
      else
        var rest := FaceLines(m, vmap, fids[1..]);
        Out([FaceLine(t, vmap)] + rest.lines, rest.err)
  }

  /** What doSave writes: the header, the vertices numbered from 0 in vtxIds order, then the faces. */
  function PlyText(m: Mesh): (o: Out)
  {
    var f := FaceLines(m, IndexMap(m.vtxIds), m.faces);
    Out(Header(NumVtxs(m), NumFaces(m)) + PositionLines(m, [], m.vtxIds) + f.lines, f.err)
  }

  // ---------------------------------------------------------------------------
  // The writing loops.

  /** The vertex loop: write each vertex and enter vvmap[vid] = i++. */
  method WriteVertices(m: Mesh) returns (lines: seq<Line>, vvmap: map<int, int>)
    ensures lines == PositionLines(m, [], m.vtxIds) && vvmap == IndexMap(m.vtxIds)
  {
    lines, vvmap := [], map[];
    var i := 0;
    while i < |m.vtxIds|
      invariant i <= |m.vtxIds|
      invariant lines == PositionLines(m, [], m.vtxIds[..i]) && vvmap == IndexMap(m.vtxIds[..i])
    {
      var vid := m.vtxIds[i];
      VertexStep(m, m.vtxIds, i);
      vvmap := vvmap[vid := i];
      lines := lines + [PositionLine([], Vtx(m, vid))];
      i := i + 1;
    }
    assert m.vtxIds[..i] == m.vtxIds;
  }

  /** One more vertex: its line is appended and its id entered at its position. */
  lemma VertexStep(m: Mesh, vids: seq<int>, i: nat)
    requires i < |vids|
    ensures PositionLines(m, [], vids[..i + 1]) == PositionLines(m, [], vids[..i]) + [PositionLine([], Vtx(m, vids[i]))]
    ensures IndexMap(vids[..i + 1]) == IndexMap(vids[..i])[vids[i] := i]
  {
    var pre := vids[..i];
    TakeSnoc(vids, i);
    assert (pre + [vids[i]])[..i] == pre;
    IndexMapSnoc(pre, vids[i]);
  }

  /** The face loop: write "3" and the three looked-up corners of each face; a failed lookup ends it. */
  method WriteFaces(m: Mesh, vvmap: map<int, int>) returns (o: Out)
    ensures o == FaceLines(m, vvmap, m.faces)
  {
    var lines: seq<Line> := [];
    var k := 0;
    while k < |m.faces|
      invariant k <= |m.faces|
      invariant FaceLines(m, vvmap, m.faces) ==
        Out(lines + FaceLines(m, vvmap, m.faces[k..]).lines, FaceLines(m, vvmap, m.faces[k..]).err)
    {
      var f := Corners(m, m.faces[k]);
      assert m.faces[k..][1..] == m.faces[k + 1..];
      if !(f.a in vvmap && f.b in vvmap && f.c in vvmap) {
        return Out(lines, MAP_AT);
      }
      lines := lines + [Line(0, [W("3"), I(vvmap[f.a]), I(vvmap[f.b]), I(vvmap[f.c])])];
      k := k + 1;
    }
    o := Out(lines, "");
  }

  /** The body of doSave's try block. */
  method WritePly(m: Mesh) returns (o: Out)
    ensures o == PlyText(m)
  {
    var header := Header(|m.vtxIds|, |m.faces|);
    var vlines, vvmap := WriteVertices(m);
    var flines := WriteFaces(m, vvmap);
    o := Out(header + vlines + flines.lines, flines.err);
  }

  // ---------------------------------------------------------------------------
  // Properties of the written text.

  /** The face lines are complete exactly when every corner is in the table; otherwise .at's error is reported. */
  lemma {:induction false} FaceLinesComplete(m: Mesh, vmap: map<int, int>, fids: seq<int>)
    ensures FaceLines(m, vmap, fids).err in {"", MAP_AT}
    ensures FaceLines(m, vmap, fids).err == "" <==> forall f :: f in fids ==> Mapped(Corners(m, f), vmap)
    ensures FaceLines(m, vmap, fids).err == "" ==>
      |FaceLines(m, vmap, fids).lines| == |fids| &&
      forall k :: 0 <= k < |fids| ==> FaceLines(m, vmap, fids).lines[k] == FaceLine(Corners(m, fids[k]), vmap)
  {
    if fids != [] {
      FaceLinesComplete(m, vmap, fids[1..]);
      assert forall f :: f in fids <==> f == fids[0] || f in fids[1..];
    }
  }

  /** The written lines never exceed one per face, whether or not a lookup failed. */
  lemma {:induction false} FaceLinesBound(m: Mesh, vmap: map<int, int>, fids: seq<int>)
    ensures |FaceLines(m, vmap, fids).lines| <= |fids|
  {
    if fids != [] {
      FaceLinesBound(m, vmap, fids[1..]);
    }
  }

  /**
   * The header's counts are the numbers of vertex and face lines that follow
   * it when writing completes, and the i-th vertex line holds the i-th id's
   * position.
   */
  lemma Counts(m: Mesh)
    requires PlyText(m).err == ""
    ensures PlyText(m).lines[3] == Line(0, [W("element vertex"), I(NumVtxs(m))])
    ensures PlyText(m).lines[7] == Line(0, [W("element face"), I(NumFaces(m))])
    ensures |PlyText(m).lines| == HEADER_LINES + NumVtxs(m) + NumFaces(m)
    ensures forall i :: 0 <= i < NumVtxs(m) ==> PlyText(m).lines[HEADER_LINES + i] == PositionLine([], Vtx(m, m.vtxIds[i]))
  {
    var f := FaceLines(m, IndexMap(m.vtxIds), m.faces);
    FaceLinesComplete(m, IndexMap(m.vtxIds), m.faces);
    PositionLinesAt(m, [], m.vtxIds);
    PlyLayout(Header(NumVtxs(m), NumFaces(m)), PositionLines(m, [], m.vtxIds), f.lines);
  }

  /** Where the header, vertex and face lines sit in the written text. */
  lemma PlyLayout(h: seq<Line>, vl: seq<Line>, fl: seq<Line>)
    requires |h| == HEADER_LINES
    ensures |h + vl + fl| == HEADER_LINES + |vl| + |fl|
    ensures (h + vl + fl)[3] == h[3] && (h + vl + fl)[7] == h[7]
    ensures forall i :: 0 <= i < |vl| ==> (h + vl + fl)[HEADER_LINES + i] == vl[i]
    ensures forall k :: 0 <= k < |fl| ==> (h + vl + fl)[HEADER_LINES + |vl| + k] == fl[k]
  {
  }

  /**
   * Writing fails exactly when some face has a corner that is not a listed
   * vertex, and then reports .at's error.
   */
  lemma ErrorIff(m: Mesh)
    ensures PlyText(m).err in {"", MAP_AT}
    ensures PlyText(m).err != "" <==> exists f :: f in m.faces && !CornersIn(Corners(m, f), m.vtxIds)
  {
    FaceLinesComplete(m, IndexMap(m.vtxIds), m.faces);
    assert forall f :: Mapped(Corners(m, f), IndexMap(m.vtxIds)) <==> CornersIn(Corners(m, f), m.vtxIds);
  }

  /**
   * For a valid mesh writing completes, and face line k (after the header and
   * the vertices) is "3 i j l" where i, j and l are below numVtxs() and are
   * the positions in vtxIds of face k's corners in winding order.
   */
  lemma FaceIndices(m: Mesh)
    requires Valid(m)
    ensures PlyText(m).err == ""
    ensures |PlyText(m).lines| == HEADER_LINES + NumVtxs(m) + NumFaces(m)
    ensures forall k :: 0 <= k < NumFaces(m) ==>
      IndexesCorners(PlyText(m).lines[HEADER_LINES + NumVtxs(m) + k], Corners(m, m.faces[k]), m.vtxIds)
  {
    assert forall f :: f in m.faces ==> CornersIn(Corners(m, f), m.vtxIds);
    FaceIndicesListed(m);
  }

  /** FaceIndices for any mesh whose faces have their corners among the listed vertices. */
  lemma FaceIndicesListed(m: Mesh)
    requires forall f :: f in m.faces ==> CornersIn(Corners(m, f), m.vtxIds)
    ensures PlyText(m).err == ""
    ensures |PlyText(m).lines| == HEADER_LINES + NumVtxs(m) + NumFaces(m)
    ensures forall k :: 0 <= k < NumFaces(m) ==>
      IndexesCorners(PlyText(m).lines[HEADER_LINES + NumVtxs(m) + k], Corners(m, m.faces[k]), m.vtxIds)
  {
    var f := FaceLines(m, IndexMap(m.vtxIds), m.faces);
    FaceLinesIndexes(m);
    PlyFaceLines(m);
    forall k | 0 <= k < NumFaces(m)
      ensures IndexesCorners(PlyText(m).lines[HEADER_LINES + NumVtxs(m) + k], Corners(m, m.faces[k]), m.vtxIds)
    {
      assert PlyText(m).lines[HEADER_LINES + NumVtxs(m) + k] == f.lines[k];
    }
  }

  /** The face lines follow the header and the vertex lines. */
  lemma PlyFaceLines(m: Mesh)
    ensures PlyText(m).err == FaceLines(m, IndexMap(m.vtxIds), m.faces).err
    ensures |PlyText(m).lines| == HEADER_LINES + NumVtxs(m) + |FaceLines(m, IndexMap(m.vtxIds), m.faces).lines|
    ensures forall k :: 0 <= k < |FaceLines(m, IndexMap(m.vtxIds), m.faces).lines| ==>
      PlyText(m).lines[HEADER_LINES + NumVtxs(m) + k] == FaceLines(m, IndexMap(m.vtxIds), m.faces).lines[k]
  {
    FaceLayout(Header(NumVtxs(m), NumFaces(m)), PositionLines(m, [], m.vtxIds), FaceLines(m, IndexMap(m.vtxIds), m.faces), NumVtxs(m));
  }

  /** Where the face lines sit in a text made of a header, n vertex lines and the face lines. */
  lemma FaceLayout(h: seq<Line>, vl: seq<Line>, f: Out, n: nat)
    requires |h| == HEADER_LINES && |vl| == n
    ensures |h + vl + f.lines| == HEADER_LINES + n + |f.lines|
    ensures forall k :: 0 <= k < |f.lines| ==> (h + vl + f.lines)[HEADER_LINES + n + k] == f.lines[k]
  {
  }

  /** The face lines alone: line k holds the positions of face k's corners. */
  lemma FaceLinesIndexes(m: Mesh)
    requires forall f :: f in m.faces ==> CornersIn(Corners(m, f), m.vtxIds)
    ensures FaceLines(m, IndexMap(m.vtxIds), m.faces).err == ""
    ensures |FaceLines(m, IndexMap(m.vtxIds), m.faces).lines| == NumFaces(m)
    ensures forall k :: 0 <= k < NumFaces(m) ==>
      IndexesCorners(FaceLines(m, IndexMap(m.vtxIds), m.faces).lines[k], Corners(m, m.faces[k]), m.vtxIds)
  {
    var vmap := IndexMap(m.vtxIds);
    var f := FaceLines(m, vmap, m.faces);
    FaceLinesComplete(m, vmap, m.faces);
    forall k | 0 <= k < NumFaces(m)
      ensures IndexesCorners(f.lines[k], Corners(m, m.faces[k]), m.vtxIds)
    {
      assert m.faces[k] in m.faces;
      FaceLineIndexes(m.vtxIds, Corners(m, m.faces[k]));
    }
  }

  /** The line is "3 i j l" with positions i, j, l in vids that hold t's corners in winding order. */
  ghost predicate IndexesCorners(line: Line, t: Tri, vids: seq<int>)
  {
    exists i, j, l ::
      && 0 <= i < |vids| && 0 <= j < |vids| && 0 <= l < |vids|
      && line == Line(0, [W("3"), I(i), I(j), I(l)])
      && t == Tri(vids[i], vids[j], vids[l])
  }

  /** The line of a face whose corners are listed holds their positions, in range and in winding order. */
  lemma FaceLineIndexes(vids: seq<int>, t: Tri)
    requires CornersIn(t, vids)
    ensures IndexesCorners(FaceLine(t, IndexMap(vids)), t, vids)
  {
    var vmap := IndexMap(vids);
    IndexMapAt(vids, t.a);
    IndexMapAt(vids, t.b);
    IndexMapAt(vids, t.c);
    var i, j, l := vmap[t.a], vmap[t.b], vmap[t.c];
    assert FaceLine(t, vmap) == Line(0, [W("3"), I(i), I(j), I(l)]);
    assert t == Tri(vids[i], vids[j], vids[l]);
  }

  /** Vertex ids are numbered 0, 1, 2, ... in vtxIds order. */
  lemma Numbering(m: Mesh)
    requires Valid(m)
    ensures forall i :: 0 <= i < NumVtxs(m) ==> IndexMap(m.vtxIds)[m.vtxIds[i]] == i
  {
    IndexMapPositions(m.vtxIds);
  }

  // ---------------------------------------------------------------------------
  // The exporter.

  class Exporter {
    const formats: IOFormats.Formats

    ghost predicate Valid()
      reads formats
    {
      formats.Valid()
    }

    /** The constructor registers "ply". */
    constructor ()
      ensures Valid() && fresh(formats)
      ensures formats.exts == ["ply"] && formats.descs == map["ply" := PLY_DESC] && formats.err == ""
    {
      var f := new IOFormats.Formats();
      assert Trim(PLY_DESC) == PLY_DESC;
      var _ := IOFormats.RegisterWord(f, "ply", PLY_DESC);
      formats := f;
    }

    /**
     * doSave: open the file (`opens` says whether that succeeds; a stream
     * that failed to open swallows the text without an error), write the
     * text, and report an exception caught on the way.
     */
    method DoSave(m: Mesh, fname: string, fs: Files.FileSystem, opens: bool) returns (ok: bool, text: seq<Line>)
      requires Valid()
      modifies formats, fs
      ensures Valid() && formats.exts == old(formats.exts) && formats.descs == old(formats.descs)
      ensures ok == (PlyText(m).err == "")
      ensures text == (if opens then PlyText(m).lines else [])
      ensures formats.err == (if ok then old(formats.err) else WRITE_FAILED + PlyText(m).err)
      ensures fs.regular == old(fs.regular) + (if opens then {fname} else {})
    {
      var o := WritePly(m);
      text := [];
      if opens {
        fs.Create(fname);
        text := o.lines;
      }
      if o.err != "" {
        formats.SetErr(WRITE_FAILED + o.err);
      }
      ok := o.err == "";
    }

    /** MeshExporter::save on a PLYExporter: the filename guards, then doSave. */
    method Save(m: Mesh, fname: string, fs: Files.FileSystem, opens: bool) returns (ok: bool, text: seq<Line>)
      requires Valid()
      modifies formats, fs
      ensures Valid() && formats.exts == old(formats.exts) && formats.descs == old(formats.descs)
      ensures fname == "" ==> formats.err == MeshExporter.EMPTY_FILENAME
      ensures fname != "" && !formats.IsSupported(fname) ==> formats.err == MeshExporter.Unsupported(fname)
      ensures !(fname != "" && formats.IsSupported(fname)) ==> !ok && text == [] && fs.regular == old(fs.regular)
      ensures fname != "" && formats.IsSupported(fname) ==>
        && ok == (PlyText(m).err == "")
        && text == (if opens then PlyText(m).lines else [])
        && formats.err == (if ok then "" else WRITE_FAILED + PlyText(m).err)
        && fs.regular == old(fs.regular) + (if opens then {fname} else {})
    {
      var proceed := MeshExporter.CheckSave(formats, fname);
      if !proceed {
        return false, [];
      }
      ok, text := DoSave(m, fname, fs, opens);
    }
  }
}
