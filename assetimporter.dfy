/**
 * The Assimp-backed importer (src/AssetImporter.cpp). Its constructor offers
 * the file extensions of Assimp's importers, each under a description cleaned
 * from the importer's name; loading turns each aiMesh of the imported scene
 * into faces of the library's mesh, and loads a texture per mesh with
 * texture coordinates. Assimp and the library's mesh are parameters here:
 * the importer list is given to the constructor, the scene that ReadFile
 * produces to doLoad, and the ids that Mesh::addFace and Mesh::addMaterial
 * hand back are given as an oracle.
 */
module AssetImporter {

  import opened Wrappers
  import opened Text
  import opened Meshes
  import Paths
  import Images
  import IOFormats
  import MeshImporter

  // ---------------------------------------------------------------------------
  // Importer descriptions.

  /** The position of the first '(' and of the first ')', when both exist and the ')' does not come first. */
  predicate Enclosed(s: string)
  {
    FindFirst(s, '(').Some? && FindFirst(s, ')').Some? && FindFirst(s, '(').value <= FindFirst(s, ')').value
  }

  /** One pass of removeParentheticalContent's loop: the span from the first '(' to the first ')' goes, both included. */
  function CutFirst(s: string): (r: string)
    requires Enclosed(s)
    ensures |r| < |s|
  {
    var p0, p1 := FindFirst(s, '(').value, FindFirst(s, ')').value;
    s[..p0] + s[p1 + 1..]
  }

  /** The passes of removeParentheticalContent, up to the first one that finds nothing to remove. */
  function StripParens(s: string): string
    decreases |s|
  {
    if Enclosed(s) then StripParens(CutFirst(s)) else s
  }

  /** removeParentheticalContent: the passes, then boost::algorithm::trim. */
  function RemoveParenthetical(s: string): string
  {
    Trim(StripParens(s))
  }

  /** The passes stop only once no '(' is followed by the first ')'. */
  lemma {:induction false} StripParensSettled(s: string)
    ensures !Enclosed(StripParens(s))
    decreases |s|
  {
    if Enclosed(s) {
      StripParensSettled(CutFirst(s));
    }
  }

  /** A string with nothing to remove, such as one whose first ')' precedes its first '(', is left as it is. */
  lemma StripParensSettledFixed(s: string)
    requires !Enclosed(s)
    ensures StripParens(s) == s
  {
  }

  /** Removing again removes nothing more. */
  lemma StripParensIdempotent(s: string)
    ensures StripParens(StripParens(s)) == StripParens(s)
  {
    StripParensSettled(s);
  }

  /** The passes only delete characters: what is left is no longer and adds no character. */
  lemma {:induction false} StripParensChars(s: string)
    ensures |StripParens(s)| <= |s|
    ensures forall c :: c in StripParens(s) ==> c in s
    decreases |s|
  {
    if Enclosed(s) {
      var p0, p1 := FindFirst(s, '(').value, FindFirst(s, ')').value;
      var t := CutFirst(s);
      StripParensChars(t);
      forall c | c in t
        ensures c in s
      {
        var i :| 0 <= i < |t| && t[i] == c;
        if i < p0 {
          assert t[i] == s[i];
        } else {
          assert t[i] == s[i + p1 + 1 - p0];
        }
      }
    }
  }

  /**
   * A parenthetical group preceded by text without brackets goes whole,
   * both brackets included, and the removal carries on with what follows.
   */
  lemma GroupRemoved(a: string, b: string, c: string)
    requires '(' !in a && ')' !in a && ')' !in b
    ensures StripParens(a + ['('] + b + [')'] + c) == StripParens(a + c)
  {
    var s := a + ['('] + b + [')'] + c;
    var p0, p1 := |a|, |a| + 1 + |b|;
    assert s[p0] == '(' && s[p1] == ')';
    assert s[..p0] == a;
    assert '(' !in s[..p0];
    assert ')' !in s[..p1] by {
      assert s[..p1] == a + ['('] + b;
    }
    assert FindFirst(s, '(') == Some(p0);
    assert FindFirst(s, ')') == Some(p1);
    assert s[p1 + 1..] == c;
  }

  /** removeParentheticalContent, as the loop the source runs on its string. */
  method RemoveParentheticalContent(s: string) returns (r: string)
    ensures r == RemoveParenthetical(s)
  {
    r := s;
    var removed := true;
    while removed
      invariant StripParens(r) == StripParens(s)
      invariant !removed ==> !Enclosed(r)
      decreases |r|, removed
    {
      var p0, p1 := FindFirst(r, '('), FindFirst(r, ')');
      if p0.None? || p1.None? || p1.value < p0.value {
        removed := false;
      } else {
        r := r[..p0.value] + r[p1.value + 1..];
      }
    }
    r := Trim(r);
  }

  /** pat occurs in s at position i. */
  predicate OccursAt(s: string, pat: string, i: nat)
  {
    i + |pat| <= |s| && s[i..i + |pat|] == pat
  }

  /** The start of the last occurrence of pat that begins before `end`. */
  function LastFrom(s: string, pat: string, end: nat): (r: Option<nat>)
    requires end <= |s|
    ensures r.Some? ==> r.value < end && OccursAt(s, pat, r.value)
    ensures forall i :: (if r.Some? then r.value + 1 else 0) <= i < end ==> !OccursAt(s, pat, i)
  {
    if end == 0 then None
    else if OccursAt(s, pat, end - 1) then Some(end - 1)
    else LastFrom(s, pat, end - 1)
  }

  /** boost::algorithm::replace_last(s, pat, ""): the last occurrence of pat goes, if there is one. */
  function RemoveLast(s: string, pat: string): (r: string)
    requires pat != []
  {
    match LastFrom(s, pat, |s|)
    case None => s
    case Some(i) => s[..i] + s[i + |pat|..]
  }

  /** What replace_last removes: exactly one occurrence of pat, the last one, and nothing when pat does not occur. */
  lemma RemoveLastShape(s: string, pat: string)
    requires pat != []
    ensures (forall i :: 0 <= i < |s| ==> !OccursAt(s, pat, i)) ==> RemoveLast(s, pat) == s
    ensures (exists i :: 0 <= i < |s| && OccursAt(s, pat, i)) ==>
      exists i :: 0 <= i <= |RemoveLast(s, pat)| && s == RemoveLast(s, pat)[..i] + pat + RemoveLast(s, pat)[i..]
                  && forall j :: i < j < |s| ==> !OccursAt(s, pat, j)
  {
    match LastFrom(s, pat, |s|)
    case None =>
    case Some(i) =>
      var r := RemoveLast(s, pat);
      assert r[..i] == s[..i];
      assert r[i..] == s[i + |pat|..];
      assert s == s[..i] + s[i..i + |pat|] + s[i + |pat|..];
  }

  const IMPORTER_WORD := "Importer"

  /** getImporterDescription: the importer's name without its last "Importer", without line breaks, and without parenthetical content. */
  function Description(name: string): string
  {
    RemoveParenthetical(RemoveChar(RemoveLast(name, IMPORTER_WORD), '\n'))
  }

  /** A description has no line break, no surrounding whitespace, and is a trimmed string with nothing left to remove. */
  lemma DescriptionShape(name: string)
    ensures '\n' !in Description(name)
    ensures Trim(Description(name)) == Description(name)
    ensures exists t :: !Enclosed(t) && '\n' !in t && Description(name) == Trim(t)
  {
    var u := RemoveChar(RemoveLast(name, IMPORTER_WORD), '\n');
    var t := StripParens(u);
    StripParensChars(u);
    StripParensSettled(u);
    var lo, hi := TrimSlice(t);
    assert '\n' !in Trim(t) by {
      forall i | 0 <= i < |Trim(t)|
        ensures Trim(t)[i] != '\n'
      {
        assert Trim(t)[i] == t[lo + i];
      }
    }
    TrimIdempotent(t);
  }

  // ---------------------------------------------------------------------------
  // The format table.

  /** Extensions the constructor never offers, whatever Assimp lists. */
  predicate Disallowed(tok: string)
  {
    tok in {"3d", "assbin", "assxml", "pk3", "xml", "cob", "scn", "mesh.xml", "glb", "gltf", "x"}
  }

  /** One of Assimp's importers: its space-separated file extensions and its name. */
  datatype ImporterInfo = ImporterInfo(exts: string, name: string)

  /** getImporterSuffix: the importer's extension list, trimmed. */
  function Suffix(d: ImporterInfo): string
  {
    Trim(d.exts)
  }

  /** The extension tokens the constructor goes through for an importer: none without extensions or without a description. */
  function Offered(d: ImporterInfo): (r: seq<string>)
    ensures forall k :: 0 <= k < |r| ==> r[k] != [] && ' ' !in r[k]
  {
    if Suffix(d) == "" || Description(d.name) == "" then [] else Tokens(Suffix(d), ' ')
  }

  /** The table after the tokens of toks, each one not disallowed set to desc. */
  function AddTokens(avail: map<string, string>, toks: seq<string>, desc: string): (r: map<string, string>)
    ensures forall e :: e in r <==> e in avail || (e in toks && !Disallowed(e))
  {
    if toks == [] then avail
    else
      var a := AddTokens(avail, toks[..|toks| - 1], desc);
      var t := toks[|toks| - 1];
      assert forall e :: e in toks <==> e in toks[..|toks| - 1] || e == t by {
        assert toks == toks[..|toks| - 1] + [t];
      }
      if Disallowed(t) then a else a[t := desc]
  }

  /** What the constructor takes from one importer: the tokens it goes through and the description they get. */
  datatype Entry = Entry(toks: seq<string>, desc: string)

  function EntryOf(d: ImporterInfo): Entry
  {
    Entry(Offered(d), Description(d.name))
  }

  function Entries(imps: seq<ImporterInfo>): (r: seq<Entry>)
    ensures |r| == |imps| && forall i :: 0 <= i < |imps| ==> r[i] == EntryOf(imps[i])
  {
    seq(|imps|, i requires 0 <= i < |imps| => EntryOf(imps[i]))
  }

  /** The table after the entries of es, in order. */
  function Table(es: seq<Entry>): map<string, string>
  {
    if es == [] then map[]
    else
      var x := es[|es| - 1];
      AddTokens(Table(es[..|es| - 1]), x.toks, x.desc)
  }

  /** _available after the constructor has gone through the importers of imps. */
  function Available(imps: seq<ImporterInfo>): map<string, string>
  {
    Table(Entries(imps))
  }

  /** The tokens of one importer take its description; every other entry keeps its value. */
  lemma {:induction false} AddTokensValue(avail: map<string, string>, toks: seq<string>, desc: string, e: string)
    requires e in AddTokens(avail, toks, desc)
    ensures AddTokens(avail, toks, desc)[e] == if e in toks && !Disallowed(e) then desc else avail[e]
  {
    if toks != [] {
      var t := toks[|toks| - 1];
      assert toks == toks[..|toks| - 1] + [t];
      if e != t || Disallowed(t) {
        AddTokensValue(avail, toks[..|toks| - 1], desc, e);
      }
    }
  }

  lemma {:induction false} TableMembers(es: seq<Entry>, e: string)
    ensures e in Table(es) <==> !Disallowed(e) && exists i :: 0 <= i < |es| && e in es[i].toks
  {
    if es != [] {
      TableMembers(es[..|es| - 1], e);
      ListedSnoc(es, es[..|es| - 1], e);
    }
  }

  /** Some entry lists e iff an entry before the last one does or the last one does. */
  lemma ListedSnoc(es: seq<Entry>, pre: seq<Entry>, e: string)
    requires es != [] && pre == es[..|es| - 1]
    ensures (exists i :: 0 <= i < |es| && e in es[i].toks)
            <==> (exists i :: 0 <= i < |pre| && e in pre[i].toks) || e in es[|es| - 1].toks
  {
    if exists i :: 0 <= i < |es| && e in es[i].toks {
      var i :| 0 <= i < |es| && e in es[i].toks;
      if i < |es| - 1 {
        assert pre[i] == es[i];
      }
    }
    if exists i :: 0 <= i < |pre| && e in pre[i].toks {
      var i :| 0 <= i < |pre| && e in pre[i].toks;
      assert es[i] == pre[i];
    }
  }

  /** Every value of the table is the description of an entry that lists its key. */
  lemma {:induction false} TableValues(es: seq<Entry>, e: string) returns (i: nat)
    requires e in Table(es)
    ensures i < |es| && e in es[i].toks && Table(es)[e] == es[i].desc
  {
    var n := |es| - 1;
    var pre := es[..n];
    AddTokensValue(Table(pre), es[n].toks, es[n].desc, e);
    if e in es[n].toks && !Disallowed(e) {
      i := n;
    } else {
      i := TableValues(pre, e);
      assert es[i] == pre[i];
    }
  }

  /** An extension is offered iff some importer with a description lists it and it is not disallowed. */
  lemma AvailableMembers(imps: seq<ImporterInfo>, e: string)
    ensures e in Available(imps) <==> !Disallowed(e) && exists i :: 0 <= i < |imps| && e in Offered(imps[i])
  {
    var es := Entries(imps);
    TableMembers(es, e);
    if exists i :: 0 <= i < |imps| && e in Offered(imps[i]) {
      var i :| 0 <= i < |imps| && e in Offered(imps[i]);
      assert e in es[i].toks;
    }
  }

  /**
   * Later importers overwrite: an importer that lists an extension gives it
   * its description, and an importer that does not leaves it as it was.
   */
  lemma AvailableLastWins(imps: seq<ImporterInfo>, d: ImporterInfo, e: string)
    ensures e in Offered(d) && !Disallowed(e) ==> e in Available(imps + [d]) && Available(imps + [d])[e] == Description(d.name)
    ensures e !in Offered(d) ==> (e in Available(imps + [d]) <==> e in Available(imps))
    ensures e !in Offered(d) && e in Available(imps) ==> Available(imps + [d])[e] == Available(imps)[e]
  {
    var es := Entries(imps + [d]);
    assert es[..|imps|] == Entries(imps);
    assert es[|imps|] == EntryOf(d);
    if e in Available(imps + [d]) {
      AddTokensValue(Available(imps), Offered(d), Description(d.name), e);
    }
  }

  /** Every offered extension is a token without spaces, and its description is non-empty, trimmed and on one line. */
  lemma AvailableShape(imps: seq<ImporterInfo>, e: string)
    requires e in Available(imps)
    ensures e != [] && ' ' !in e && !Disallowed(e)
    ensures var desc := Available(imps)[e]; desc != "" && '\n' !in desc && Trim(desc) == desc
  {
    var es := Entries(imps);
    TableMembers(es, e);
    var i := TableValues(es, e);
    var d := imps[i];
    assert e in Offered(d) && Available(imps)[e] == Description(d.name);
    assert Offered(d) != [];
    DescriptionShape(d.name);
    var k :| 0 <= k < |Offered(d)| && Offered(d)[k] == e;
  }

  // ---------------------------------------------------------------------------
  // Faces of an imported aiMesh.

  /**
   * An aiMesh as Assimp hands it over: each face as the indices of its
   * corners into the vertex array, the first texture-coordinate channel if
   * there is one, and the index of its material.
   */
  datatype AiMeshIn = AiMeshIn(faces: seq<seq<nat>>, vertices: seq<Vec3>, texCoords: Option<seq<Vec3>>, materialIndex: nat)

  /** Assimp's guarantees: every corner index names a vertex, and a texture channel has a coordinate per vertex. */
  predicate WellFormed(mesh: AiMeshIn)
  {
    && (forall f, k :: 0 <= f < |mesh.faces| && 0 <= k < |mesh.faces[f]| ==> mesh.faces[f][k] < |mesh.vertices|)
    && (mesh.texCoords.Some? ==> |mesh.texCoords.value| == |mesh.vertices|)
  }

  predicate Triangle(mesh: AiMeshIn, i: nat)
    requires i < |mesh.faces|
  {
    |mesh.faces[i]| == 3
  }

  /** A triangle two of whose corners sit at the same position. */
  predicate Degenerate(mesh: AiMeshIn, i: nat)
    requires WellFormed(mesh) && i < |mesh.faces| && Triangle(mesh, i)
  {
    var v := mesh.faces[i];
    var p0, p1, p2 := mesh.vertices[v[0]], mesh.vertices[v[1]], mesh.vertices[v[2]];
    p0 == p1 || p1 == p2 || p2 == p0
  }

  /** The positions of a triangle's corners, in its winding order: what setObjectFaces hands to Mesh::addFace. */
  function TriangleCorners(mesh: AiMeshIn, i: nat): (r: seq<Vec3>)
    requires WellFormed(mesh) && i < |mesh.faces| && Triangle(mesh, i)
    ensures |r| == 3
  {
    var v := mesh.faces[i];
    [mesh.vertices[v[0]], mesh.vertices[v[1]], mesh.vertices[v[2]]]
  }

  /** A face that setObjectFaces passes to Mesh::addFace. */
  predicate Usable(mesh: AiMeshIn, i: nat)
    requires WellFormed(mesh) && i < |mesh.faces|
  {
    Triangle(mesh, i) && !Degenerate(mesh, i)
  }

  /** What setObjectFaces has after its first n faces: fids, the two counters, and faceSet. */
  datatype FaceScan = FaceScan(fids: seq<int>, nonTriangles: nat, dupFaces: nat, seen: set<int>)

  /**
   * setObjectFaces over the first n faces. `ids[i]` is the id Mesh::addFace
   * hands back for face i (it is only asked for the usable faces).
   */
  function Scan(mesh: AiMeshIn, ids: seq<int>, n: nat): (r: FaceScan)
    requires WellFormed(mesh) && |ids| == |mesh.faces| && n <= |mesh.faces|
    ensures |r.fids| == n
  {
    if n == 0 then FaceScan([], 0, 0, {})
    else
      var s, i := Scan(mesh, ids, n - 1), n - 1;
      if !Triangle(mesh, i) then s.(fids := s.fids + [-1], nonTriangles := s.nonTriangles + 1)
      else if Degenerate(mesh, i) then s.(fids := s.fids + [-1], dupFaces := s.dupFaces + 1)
      else if ids[i] in s.seen || ids[i] < 0 then
        s.(fids := s.fids + [-1], dupFaces := s.dupFaces + (if ids[i] in s.seen then 1 else 0))
      else s.(fids := s.fids + [ids[i]], seen := s.seen + {ids[i]})
  }

  /**
   * The positions setObjectFaces hands to Mesh::addFace for each of the
   * first n faces: the corners of a usable triangle, [] for a face it skips.
   */
  function Handed(mesh: AiMeshIn, n: nat): (r: seq<seq<Vec3>>)
    requires WellFormed(mesh) && n <= |mesh.faces|
    ensures |r| == n
  {
    if n == 0 then []
    else Handed(mesh, n - 1) + [if Usable(mesh, n - 1) then TriangleCorners(mesh, n - 1) else []]
  }

  /** The non-negative ids addFace hands back for the usable faces among the first n. */
  function UsableIds(mesh: AiMeshIn, ids: seq<int>, n: nat): set<int>
    requires WellFormed(mesh) && |ids| == |mesh.faces| && n <= |mesh.faces|
  {
    if n == 0 then {}
    else UsableIds(mesh, ids, n - 1) + (if Usable(mesh, n - 1) && ids[n - 1] >= 0 then {ids[n - 1]} else {})
  }

  lemma {:induction false} UsableIdsMembers(mesh: AiMeshIn, ids: seq<int>, n: nat, x: int)
    requires WellFormed(mesh) && |ids| == |mesh.faces| && n <= |mesh.faces|
    ensures x in UsableIds(mesh, ids, n) <==> exists j :: 0 <= j < n && Usable(mesh, j) && ids[j] >= 0 && ids[j] == x
  {
    if n > 0 {
      UsableIdsMembers(mesh, ids, n - 1, x);
    }
  }

  /** Face i keeps its id: it is usable, its id is valid, and no earlier usable face got the same id. */
  predicate Fresh(mesh: AiMeshIn, ids: seq<int>, i: nat)
    requires WellFormed(mesh) && |ids| == |mesh.faces| && i < |mesh.faces|
  {
    Usable(mesh, i) && ids[i] >= 0 && forall j :: 0 <= j < i && Usable(mesh, j) ==> ids[j] != ids[i]
  }

  /** faceSet holds the ids of all usable faces so far. */
  lemma {:induction false} ScanSeen(mesh: AiMeshIn, ids: seq<int>, n: nat)
    requires WellFormed(mesh) && |ids| == |mesh.faces| && n <= |mesh.faces|
    ensures Scan(mesh, ids, n).seen == UsableIds(mesh, ids, n)
  {
    if n > 0 {
      ScanSeen(mesh, ids, n - 1);
    }
  }

  /** The slots already written never change. */
  lemma {:induction false} ScanPrefix(mesh: AiMeshIn, ids: seq<int>, n: nat)
    requires WellFormed(mesh) && |ids| == |mesh.faces| && n <= |mesh.faces|
    ensures forall i :: 0 <= i < n ==> Scan(mesh, ids, n).fids[i] == Scan(mesh, ids, i + 1).fids[i]
  {
    if n > 0 {
      ScanPrefix(mesh, ids, n - 1);
      assert Scan(mesh, ids, n).fids[..n - 1] == Scan(mesh, ids, n - 1).fids;
    }
  }

  /**
   * addFace is handed the corner positions of every usable triangle, in
   * winding order, and nothing for the other faces.
   */
  lemma {:induction false} HandedCorners(mesh: AiMeshIn, n: nat)
    requires WellFormed(mesh) && n <= |mesh.faces|
    ensures forall i :: 0 <= i < n ==> Handed(mesh, n)[i] == if Usable(mesh, i) then TriangleCorners(mesh, i) else []
  {
    if n > 0 {
      HandedCorners(mesh, n - 1);
      assert Handed(mesh, n)[..n - 1] == Handed(mesh, n - 1);
    }
  }

  /**
   * Slot i of fids holds the id addFace gave face i exactly when the face
   * is fresh, and -1 otherwise: non-triangles, triangles with repeated
   * positions, invalid ids and ids an earlier face already took.
   */
  lemma ScanSlot(mesh: AiMeshIn, ids: seq<int>, i: nat)
    requires WellFormed(mesh) && |ids| == |mesh.faces| && i < |mesh.faces|
    ensures Scan(mesh, ids, |mesh.faces|).fids[i] == if Fresh(mesh, ids, i) then ids[i] else -1
  {
    ScanPrefix(mesh, ids, |mesh.faces|);
    ScanSeen(mesh, ids, i);
    UsableIdsMembers(mesh, ids, i, ids[i]);
  }

  /** The faces kept are distinct: no id appears twice among the non-negative slots. */
  lemma ScanDistinct(mesh: AiMeshIn, ids: seq<int>, i: nat, j: nat)
    requires WellFormed(mesh) && |ids| == |mesh.faces| && i < j < |mesh.faces|
    requires Scan(mesh, ids, |mesh.faces|).fids[i] >= 0
    ensures Scan(mesh, ids, |mesh.faces|).fids[i] != Scan(mesh, ids, |mesh.faces|).fids[j]
  {
    ScanSlot(mesh, ids, i);
    ScanSlot(mesh, ids, j);
  }

  /** nonTriangles counts the faces that are not triangles: it is positive iff there is one. */
  lemma {:induction false} ScanNonTriangles(mesh: AiMeshIn, ids: seq<int>, n: nat)
    requires WellFormed(mesh) && |ids| == |mesh.faces| && n <= |mesh.faces|
    ensures Scan(mesh, ids, n).nonTriangles <= n
    ensures Scan(mesh, ids, n).nonTriangles > 0 <==> exists i :: 0 <= i < n && !Triangle(mesh, i)
  {
    if n > 0 {
      ScanNonTriangles(mesh, ids, n - 1);
    }
  }

  /**
   * Every face is accounted for once: as a non-triangle, as a duplicate, as
   * a kept face, or (an id below zero) as none of them.
   */
  lemma {:induction false} ScanTally(mesh: AiMeshIn, ids: seq<int>, n: nat)
    requires WellFormed(mesh) && |ids| == |mesh.faces| && n <= |mesh.faces|
    ensures var s := Scan(mesh, ids, n); s.nonTriangles + s.dupFaces + |s.seen| + Rejected(mesh, ids, n) == n
  {
    if n > 0 {
      ScanTally(mesh, ids, n - 1);
      var s := Scan(mesh, ids, n - 1);
      if Triangle(mesh, n - 1) && !Degenerate(mesh, n - 1) && ids[n - 1] !in s.seen && ids[n - 1] >= 0 {
        assert |s.seen + {ids[n - 1]}| == |s.seen| + 1;
      }
    }
  }

  /** How many usable faces among the first n got an invalid id that was not seen: addFace failed for them. */
  function Rejected(mesh: AiMeshIn, ids: seq<int>, n: nat): nat
    requires WellFormed(mesh) && |ids| == |mesh.faces| && n <= |mesh.faces|
  {
    if n == 0 then 0
    else
      var i := n - 1;
      Rejected(mesh, ids, i) + (if Usable(mesh, i) && ids[i] < 0 && ids[i] !in Scan(mesh, ids, i).seen then 1 else 0)
  }

  /**
   * setObjectFaces: one slot per face, with the two counters; dupFaces is
   * returned, nonTriangles set. `added` holds, per face, the positions handed
   * to Mesh::addFace: the corners of each usable triangle in winding order.
   */
  method SetObjectFaces(mesh: AiMeshIn, ids: seq<int>) returns (fids: seq<int>, nonTriangles: nat, dupFaces: nat, added: seq<seq<Vec3>>)
    requires WellFormed(mesh) && |ids| == |mesh.faces|
    ensures var s := Scan(mesh, ids, |mesh.faces|); fids == s.fids && nonTriangles == s.nonTriangles && dupFaces == s.dupFaces
    ensures added == Handed(mesh, |mesh.faces|)
    ensures forall i :: 0 <= i < |mesh.faces| ==> added[i] == if Usable(mesh, i) then TriangleCorners(mesh, i) else []
  {
    var faceSet: set<int> := {};
    fids, nonTriangles, dupFaces, added := [], 0, 0, [];
    var i := 0;
    while i < |mesh.faces|
      invariant i <= |mesh.faces|
      invariant FaceScan(fids, nonTriangles, dupFaces, faceSet) == Scan(mesh, ids, i)
      invariant added == Handed(mesh, i)
    {
      var face := mesh.faces[i];
      if |face| != 3 {
        nonTriangles := nonTriangles + 1;
        fids := fids + [-1];
        added := added + [[]];
      } else {
        var av0, av1, av2 := mesh.vertices[face[0]], mesh.vertices[face[1]], mesh.vertices[face[2]];
        if av0 == av1 || av1 == av2 || av2 == av0 {
          fids := fids + [-1];
          dupFaces := dupFaces + 1;
          added := added + [[]];
        } else {
          added := added + [[av0, av1, av2]];
          var fid := ids[i];
          if fid in faceSet || fid < 0 {
            fids := fids + [-1];
            if fid in faceSet {
              dupFaces := dupFaces + 1;
            }
          } else {
            fids := fids + [fid];
            faceSet := faceSet + {fid};
          }
        }
      }
      i := i + 1;
    }
    HandedCorners(mesh, |mesh.faces|);
  }

  // ---------------------------------------------------------------------------
  // Textures.

  /**
   * loadImage: `images` maps each texture file that exists to what
   * cv::imread makes of it; a file that does not exist loads as the empty
   * matrix.
   */
  function LoadImage(images: map<string, Images.Image>, ppath: string, file: string): Images.Image
  {
    var p := Paths.Join(ppath, file);
    if p in images then images[p] else Images.NoImage()
  }

  /** Every file of the list loads to a non-empty image. */
  predicate AllLoad(images: map<string, Images.Image>, ppath: string, files: seq<string>)
  {
    forall k :: 0 <= k < |files| ==> !Images.Empty(LoadImage(images, ppath, files[k]))
  }

  /** The images of the files, in order. */
  function LoadAll(images: map<string, Images.Image>, ppath: string, files: seq<string>): (r: seq<Images.Image>)
    ensures |r| == |files|
  {
    seq(|files|, k requires 0 <= k < |files| => LoadImage(images, ppath, files[k]))
  }

  /**
   * loadImages is all or nothing: it succeeds iff there is a file and every
   * file loads, and then holds every image in order; otherwise it holds none.
   */
  method LoadImages(ppath: string, imgfiles: seq<string>, images: map<string, Images.Image>)
    returns (ok: bool, imgs: seq<Images.Image>)
    ensures ok <==> imgfiles != [] && AllLoad(images, ppath, imgfiles)
    ensures imgs == if ok then LoadAll(images, ppath, imgfiles) else []
  {
    imgs := [];
    var k := 0;
    while k < |imgfiles|
      invariant k <= |imgfiles|
      invariant AllLoad(images, ppath, imgfiles[..k]) && imgs == LoadAll(images, ppath, imgfiles[..k])
    {
      var m := LoadImage(images, ppath, imgfiles[k]);
      if Images.Empty(m) {
        imgs := [];
        return false, imgs;
      }
      assert imgfiles[..k + 1] == imgfiles[..k] + [imgfiles[k]];
      imgs := imgs + [m];
      k := k + 1;
    }
    assert imgfiles[..k] == imgfiles;
    ok := imgs != [];
  }

  /** The texture files an aiMaterial lists, by texture type. */
  datatype AiMaterialIn = AiMaterialIn(ambient: seq<string>, diffuse: seq<string>, specular: seq<string>)

  /** A list of texture files that loads: not empty, and every file loads. */
  predicate Loads(images: map<string, Images.Image>, ppath: string, files: seq<string>)
  {
    files != [] && AllLoad(images, ppath, files)
  }

  /** The texture MaterialTextures::load returns: the first image of the diffuse, else the ambient, else the specular list that loads. */
  function Chosen(images: map<string, Images.Image>, ppath: string, mat: AiMaterialIn): Images.Image
  {
    if Loads(images, ppath, mat.diffuse) then LoadImage(images, ppath, mat.diffuse[0])
    else if Loads(images, ppath, mat.ambient) then LoadImage(images, ppath, mat.ambient[0])
    else if Loads(images, ppath, mat.specular) then LoadImage(images, ppath, mat.specular[0])
    else Images.NoImage()
  }

  /** A material yields a texture exactly when one of its three lists loads. */
  lemma ChosenEmpty(images: map<string, Images.Image>, ppath: string, mat: AiMaterialIn)
    ensures !Images.Empty(Chosen(images, ppath, mat)) <==>
      Loads(images, ppath, mat.diffuse) || Loads(images, ppath, mat.ambient) || Loads(images, ppath, mat.specular)
  {
    assert Images.Empty(Images.NoImage());
  }

  /** The ambient, diffuse and specular texture files of a material, and the images loaded from them. */
  class MaterialTextures {
    const ppath: string
    const ambient: seq<string>
    const diffuse: seq<string>
    const specular: seq<string>
    var amats: seq<Images.Image>
    var dmats: seq<Images.Image>
    var smats: seq<Images.Image>

    /** The constructor collects the file names of each texture type. */
    constructor (mat: AiMaterialIn, p: string)
      ensures ppath == p && ambient == mat.ambient && diffuse == mat.diffuse && specular == mat.specular
      ensures amats == [] && dmats == [] && smats == []
    {
      ppath := p;
      ambient := mat.ambient;
      diffuse := mat.diffuse;
      specular := mat.specular;
      amats, dmats, smats := [], [], [];
    }

    /** hasTexture: some texture file is listed. */
    predicate HasTexture()
    {
      ambient != [] || diffuse != [] || specular != []
    }

    function Material(): AiMaterialIn
    {
      AiMaterialIn(ambient, diffuse, specular)
    }

    /** load: diffuse first, then ambient, then specular; the first list that loads gives its first image. */
    method Load(images: map<string, Images.Image>) returns (tx: Images.Image)
      modifies this
      ensures tx == Chosen(images, ppath, Material())
      ensures dmats == (if Loads(images, ppath, diffuse) then LoadAll(images, ppath, diffuse) else [])
    {
      var ok;
      ok, dmats := LoadImages(ppath, diffuse, images);
      if ok {
        return dmats[0];
      }
      ok, amats := LoadImages(ppath, ambient, images);
      if ok {
        return amats[0];
      }
      ok, smats := LoadImages(ppath, specular, images);
      if ok {
        return smats[0];
      }
      tx := Images.NoImage();
    }
  }

  /** The texture coordinates of face i's corners, as the (u, v) of the first channel. */
  function FaceUvs(mesh: AiMeshIn, i: nat): (r: seq<Vec2>)
    requires WellFormed(mesh) && mesh.texCoords.Some? && i < |mesh.faces| && Triangle(mesh, i)
    ensures |r| == 3
  {
    var tc, v := mesh.texCoords.value, mesh.faces[i];
    [Vec2(tc[v[0]].x, tc[v[0]].y), Vec2(tc[v[1]].x, tc[v[1]].y), Vec2(tc[v[2]].x, tc[v[2]].y)]
  }

  /** A call the importer makes on the mesh it builds. */
  datatype Call =
    | AddFaces(fids: seq<int>, corners: seq<seq<Vec3>>)   // setObjectFaces: the ids the faces got, the positions addFace was given
    | AddMaterial(texture: Images.Image, matId: int)      // Mesh::addMaterial and the id it returned
    | SetFaceUVs(matId: int, fid: int, uvs: seq<Vec2>)    // Mesh::setOrderedFaceUVs

  /** Every slot that holds a face id names a triangle. */
  predicate SlotsFit(mesh: AiMeshIn, fids: seq<int>)
  {
    |fids| == |mesh.faces| && forall i :: 0 <= i < |fids| && fids[i] >= 0 ==> |mesh.faces[i]| == 3
  }

  /** setObjectTextureCoordinates over the first n faces: the corner uvs of every face that got an id, in face order. */
  function UvCalls(mesh: AiMeshIn, matId: int, fids: seq<int>, n: nat): seq<Call>
    requires WellFormed(mesh) && mesh.texCoords.Some? && SlotsFit(mesh, fids) && n <= |fids|
  {
    if n == 0 then []
    else UvCalls(mesh, matId, fids, n - 1) + (if fids[n - 1] >= 0 then [SetFaceUVs(matId, fids[n - 1], FaceUvs(mesh, n - 1))] else [])
  }

  /** The uv calls are exactly one per face that got an id, with that face's corner coordinates. */
  lemma {:induction false} UvCallsMembers(mesh: AiMeshIn, matId: int, fids: seq<int>, n: nat, c: Call)
    requires WellFormed(mesh) && mesh.texCoords.Some? && SlotsFit(mesh, fids) && n <= |fids|
    ensures c in UvCalls(mesh, matId, fids, n) <==>
      exists i :: 0 <= i < n && fids[i] >= 0 && c == SetFaceUVs(matId, fids[i], FaceUvs(mesh, i))
  {
    if n > 0 {
      UvCallsMembers(mesh, matId, fids, n - 1, c);
    }
  }

  /** setObjectTextureCoordinates: the loop over the faces that got an id. */
  method SetObjectTextureCoordinates(mesh: AiMeshIn, matId: int, fids: seq<int>) returns (calls: seq<Call>)
    requires WellFormed(mesh) && mesh.texCoords.Some? && SlotsFit(mesh, fids)
    ensures calls == UvCalls(mesh, matId, fids, |fids|)
  {
    calls := [];
    var i := 0;
    while i < |mesh.faces|
      invariant i <= |mesh.faces| && calls == UvCalls(mesh, matId, fids, i)
    {
      if fids[i] >= 0 {
        var tc, idxs := mesh.texCoords.value, mesh.faces[i];
        var uvs := [Vec2(tc[idxs[0]].x, tc[idxs[0]].y), Vec2(tc[idxs[1]].x, tc[idxs[1]].y), Vec2(tc[idxs[2]].x, tc[idxs[2]].y)];
        calls := calls + [SetFaceUVs(matId, fids[i], uvs)];
      }
      i := i + 1;
    }
  }

  // ---------------------------------------------------------------------------
  // Building the mesh.

  /** The scene ReadFile produces: its aiMeshes and its aiMaterials. */
  datatype AiSceneIn = AiSceneIn(meshes: seq<AiMeshIn>, materials: seq<AiMaterialIn>)

  /**
   * What the library's mesh hands back while the scene's aiMesh i is
   * imported: the id Mesh::addFace returns for each of its faces, and the id
   * Mesh::addMaterial returns for its texture.
   */
  datatype MeshOracle = MeshOracle(faceIds: seq<int>, matId: int)

  /** Assimp's guarantees on a scene, and an oracle with an answer for every face. */
  predicate SceneFits(sc: AiSceneIn, oracle: seq<MeshOracle>)
  {
    && |oracle| == |sc.meshes|
    && forall i :: 0 <= i < |sc.meshes| ==>
         WellFormed(sc.meshes[i]) && sc.meshes[i].materialIndex < |sc.materials| && |oracle[i].faceIds| == |sc.meshes[i].faces|
  }

  /** aiMesh::HasFaces and aiMesh::HasPositions: the meshes createMesh imports. */
  predicate HasGeometry(mesh: AiMeshIn)
  {
    |mesh.faces| > 0 && |mesh.vertices| > 0
  }

  /** aiMesh::HasTextureCoords(0). */
  predicate HasTexCoords(mesh: AiMeshIn)
  {
    mesh.texCoords.Some? && |mesh.vertices| > 0
  }

  /** An imported aiMesh with a face that is not a triangle. */
  predicate HasNonTriangle(mesh: AiMeshIn)
  {
    HasGeometry(mesh) && exists f :: 0 <= f < |mesh.faces| && !Triangle(mesh, f)
  }

  /** Where a texture comes from: the options of the importer and what the file system holds. */
  datatype TextureSource = TextureSource(loadTextures: bool, ppath: string, images: map<string, Images.Image>)

  /** The slots that setObjectFaces fills for aiMesh i. */
  function MeshFids(sc: AiSceneIn, oracle: seq<MeshOracle>, i: nat): (r: seq<int>)
    requires SceneFits(sc, oracle) && i < |sc.meshes|
    ensures SlotsFit(sc.meshes[i], r)
  {
    var mesh := sc.meshes[i];
    var r := Scan(mesh, oracle[i].faceIds, |mesh.faces|).fids;
    assert SlotsFit(mesh, r) by {
      forall j | 0 <= j < |r| && r[j] >= 0
        ensures |mesh.faces[j]| == 3
      {
        ScanSlot(mesh, oracle[i].faceIds, j);
      }
    }
    r
  }

  /** The positions setObjectFaces hands to addFace for aiMesh i: a usable triangle's corners in winding order, nothing for other faces. */
  function MeshCorners(sc: AiSceneIn, oracle: seq<MeshOracle>, i: nat): (r: seq<seq<Vec3>>)
    requires SceneFits(sc, oracle) && i < |sc.meshes|
    ensures |r| == |sc.meshes[i].faces|
    ensures forall f :: 0 <= f < |r| ==>
      r[f] == if Usable(sc.meshes[i], f) then TriangleCorners(sc.meshes[i], f) else []
  {
    var mesh := sc.meshes[i];
    HandedCorners(mesh, |mesh.faces|);
    Handed(mesh, |mesh.faces|)
  }

  /**
   * The calls createMesh makes for aiMesh i: its faces, then, when textures
   * are loaded and the mesh has texture coordinates and its material lists
   * texture files, the chosen texture, and the corner uvs of its faces when
   * the texture was accepted.
   */
  function MeshCalls(sc: AiSceneIn, oracle: seq<MeshOracle>, src: TextureSource, i: nat): seq<Call>
    requires SceneFits(sc, oracle) && i < |sc.meshes|
  {
    if !HasGeometry(sc.meshes[i]) then []
    else [AddFaces(MeshFids(sc, oracle, i), MeshCorners(sc, oracle, i))] + MaterialCalls(sc, oracle, src, i)
  }

  /** The texture calls for aiMesh i, after its faces have been added. */
  function MaterialCalls(sc: AiSceneIn, oracle: seq<MeshOracle>, src: TextureSource, i: nat): seq<Call>
    requires SceneFits(sc, oracle) && i < |sc.meshes|
  {
    var mesh, mat := sc.meshes[i], sc.materials[sc.meshes[i].materialIndex];
    if !src.loadTextures || !HasTexCoords(mesh) || (mat.ambient == [] && mat.diffuse == [] && mat.specular == []) then []
    else
      var matId, fids := oracle[i].matId, MeshFids(sc, oracle, i);
      [AddMaterial(Chosen(src.images, src.ppath, mat), matId)]
        + (if matId >= 0 then UvCalls(mesh, matId, fids, |fids|) else [])
  }

  /** The calls for the first n aiMeshes, in order. */
  function SceneCalls(sc: AiSceneIn, oracle: seq<MeshOracle>, src: TextureSource, n: nat): seq<Call>
    requires SceneFits(sc, oracle) && n <= |sc.meshes|
  {
    if n == 0 then [] else SceneCalls(sc, oracle, src, n - 1) + MeshCalls(sc, oracle, src, n - 1)
  }

  /** Importing aiMesh k appends its calls. */
  lemma {:induction false} SceneCallsStep(sc: AiSceneIn, oracle: seq<MeshOracle>, src: TextureSource, k: nat)
    requires SceneFits(sc, oracle) && k < |sc.meshes|
    ensures SceneCalls(sc, oracle, src, k + 1) == SceneCalls(sc, oracle, src, k) + MeshCalls(sc, oracle, src, k)
  {
  }

  /**
   * The calls made for the first j aiMeshes are never revised by importing
   * later ones: they stay a prefix of the calls for the first n.
   */
  lemma {:induction false} SceneCallsGrow(sc: AiSceneIn, oracle: seq<MeshOracle>, src: TextureSource, j: nat, n: nat)
    requires SceneFits(sc, oracle) && j <= n <= |sc.meshes|
    ensures SceneCalls(sc, oracle, src, j) <= SceneCalls(sc, oracle, src, n)
  {
    if j < n {
      SceneCallsGrow(sc, oracle, src, j, n - 1);
      CallsPrefixExtend(SceneCalls(sc, oracle, src, j), SceneCalls(sc, oracle, src, n - 1),
                        MeshCalls(sc, oracle, src, n - 1), SceneCalls(sc, oracle, src, n));
    }
  }

  lemma CallsPrefixExtend(a: seq<Call>, b: seq<Call>, c: seq<Call>, s: seq<Call>)
    requires a <= b && s == b + c
    ensures a <= s
  {
    assert (b + c)[..|a|] == b[..|a|];
  }

  /** One pass of createMesh's loop: the calls for aiMesh i, unless it has a non-triangle and those fail the import. */
  method ImportMesh(sc: AiSceneIn, oracle: seq<MeshOracle>, src: TextureSource, failOnNonTriangles: bool, i: nat)
    returns (calls: seq<Call>, failed: bool)
    requires SceneFits(sc, oracle) && i < |sc.meshes|
    ensures failed <==> failOnNonTriangles && HasNonTriangle(sc.meshes[i])
    ensures !failed ==> calls == MeshCalls(sc, oracle, src, i)
    ensures !failed && HasGeometry(sc.meshes[i]) ==>
      && |calls| > 0 && calls[0].AddFaces?
      && forall f :: 0 <= f < |sc.meshes[i].faces| ==>
           calls[0].corners[f] == if Usable(sc.meshes[i], f) then TriangleCorners(sc.meshes[i], f) else []
  {
    var mesh := sc.meshes[i];
    calls, failed := [], false;
    if |mesh.faces| > 0 && |mesh.vertices| > 0 {
      var fids, nonTriangles, dupTriangles, added := SetObjectFaces(mesh, oracle[i].faceIds);
      assert fids == MeshFids(sc, oracle, i);
      assert added == MeshCorners(sc, oracle, i);
      ScanNonTriangles(mesh, oracle[i].faceIds, |mesh.faces|);
      if nonTriangles > 0 && failOnNonTriangles {
        return [], true;
      }
      var extra := ImportMaterial(sc, oracle, src, i, fids);
      calls := [AddFaces(fids, added)] + extra;
    }
  }

  /** The texture part of createMesh's loop body for an aiMesh whose faces were added. */
  method ImportMaterial(sc: AiSceneIn, oracle: seq<MeshOracle>, src: TextureSource, i: nat, fids: seq<int>)
    returns (calls: seq<Call>)
    requires SceneFits(sc, oracle) && i < |sc.meshes| && HasGeometry(sc.meshes[i])
    requires fids == MeshFids(sc, oracle, i)
    ensures calls == MaterialCalls(sc, oracle, src, i)
  {
    var mesh := sc.meshes[i];
    calls := [];
    if !src.loadTextures {
      return;
    }
    if mesh.texCoords.Some? {
      var mat := new MaterialTextures(sc.materials[mesh.materialIndex], src.ppath);
      if mat.HasTexture() {
        var tx := mat.Load(src.images);
        var matId := oracle[i].matId;
        calls := [AddMaterial(tx, matId)];
        if matId >= 0 {
          var uvCalls := SetObjectTextureCoordinates(mesh, matId, fids);
          calls := calls + uvCalls;
        }
        assert mat.Material() == sc.materials[mesh.materialIndex];
      }
    }
  }

  /** createMesh fails on the first aiMesh with a non-triangle when non-triangles fail the import. */
  predicate FailsBy(sc: AiSceneIn, failOnNonTriangles: bool, n: nat)
    requires n <= |sc.meshes|
  {
    failOnNonTriangles && exists i :: 0 <= i < n && HasNonTriangle(sc.meshes[i])
  }

  /**
   * createMesh: no mesh for a scene without aiMeshes, nor when non-triangles
   * fail the import and some aiMesh has one; otherwise the calls of every
   * aiMesh in order.
   */
  method CreateMesh(sc: AiSceneIn, oracle: seq<MeshOracle>, src: TextureSource, failOnNonTriangles: bool)
    returns (model: Option<seq<Call>>)
    requires SceneFits(sc, oracle)
    ensures model.None? <==> |sc.meshes| == 0 || FailsBy(sc, failOnNonTriangles, |sc.meshes|)
    ensures model.Some? ==> model.value == SceneCalls(sc, oracle, src, |sc.meshes|)
    ensures model.Some? ==> forall i :: 0 <= i < |sc.meshes| && HasGeometry(sc.meshes[i]) ==>
      AddFaces(MeshFids(sc, oracle, i), MeshCorners(sc, oracle, i)) in model.value
  {
    if |sc.meshes| == 0 {
      return None;
    }
    model := Some([]);
    var i := 0;
    while i < |sc.meshes|
      invariant i <= |sc.meshes|
      invariant model == Some(SceneCalls(sc, oracle, src, i)) && !FailsBy(sc, failOnNonTriangles, i)
    {
      var calls, failed := ImportMesh(sc, oracle, src, failOnNonTriangles, i);
      FailsByStep(sc, failOnNonTriangles, i);
      if failed {
        FailsByGrow(sc, failOnNonTriangles, i + 1, |sc.meshes|);
        return None;
      }
      SceneCallsStep(sc, oracle, src, i);
      model := Some(model.value + calls);
      i := i + 1;
    }
    assert i == |sc.meshes|;
    forall j | 0 <= j < |sc.meshes| && HasGeometry(sc.meshes[j])
      ensures AddFaces(MeshFids(sc, oracle, j), MeshCorners(sc, oracle, j)) in model.value
    {
      SceneFacesAdded(sc, oracle, src, j, |sc.meshes|);
    }
  }

  /**
   * The faces of every aiMesh with geometry reach the mesh: among the calls
   * for any later prefix of the scene is the one adding them, with the ids
   * they got and the positions addFace was given.
   */
  lemma SceneFacesAdded(sc: AiSceneIn, oracle: seq<MeshOracle>, src: TextureSource, i: nat, n: nat)
    requires SceneFits(sc, oracle) && i < n <= |sc.meshes| && HasGeometry(sc.meshes[i])
    ensures AddFaces(MeshFids(sc, oracle, i), MeshCorners(sc, oracle, i)) in SceneCalls(sc, oracle, src, n)
  {
    SceneCallsStep(sc, oracle, src, i);
    SceneCallsGrow(sc, oracle, src, i + 1, n);
    CallsHeadIn(SceneCalls(sc, oracle, src, i), MeshCalls(sc, oracle, src, i), SceneCalls(sc, oracle, src, i + 1),
                SceneCalls(sc, oracle, src, n));
  }

  lemma CallsHeadIn(a: seq<Call>, b: seq<Call>, s: seq<Call>, t: seq<Call>)
    requires |b| > 0 && s == a + b && s <= t
    ensures b[0] in t
  {
    assert t[|a|] == b[0];
  }

  /** Failing by mesh i + 1: failing by mesh i, or mesh i has a non-triangle that fails the import. */
  lemma FailsByStep(sc: AiSceneIn, failOnNonTriangles: bool, i: nat)
    requires i < |sc.meshes|
    ensures FailsBy(sc, failOnNonTriangles, i + 1) <==>
      FailsBy(sc, failOnNonTriangles, i) || (failOnNonTriangles && HasNonTriangle(sc.meshes[i]))
  {
  }

  lemma FailsByGrow(sc: AiSceneIn, failOnNonTriangles: bool, j: nat, n: nat)
    requires j <= n <= |sc.meshes| && FailsBy(sc, failOnNonTriangles, j)
    ensures FailsBy(sc, failOnNonTriangles, n)
  {
  }

  // ---------------------------------------------------------------------------
  // The importer.

  const READ_FAILED := "Unable to read 3D scene into importer from "
  const TRANSLATE_FAILED := "Unable to translate imported mesh into standard format!"

  /** getImporterDescription, with removeParentheticalContent's loop. */
  method GetImporterDescription(name: string) returns (desc: string)
    ensures desc == Description(name)
  {
    desc := RemoveLast(name, IMPORTER_WORD);
    desc := RemoveChar(desc, '\n');
    desc := RemoveParentheticalContent(desc);
  }

  /** Going through one more importer adds its tokens, under its description. */
  lemma AvailableStep(imps: seq<ImporterInfo>, i: nat)
    requires i < |imps|
    ensures Available(imps[..i + 1]) == AddTokens(Available(imps[..i]), Offered(imps[i]), Description(imps[i].name))
  {
    var es := Entries(imps[..i + 1]);
    assert es[..i] == Entries(imps[..i]);
    assert es[i] == EntryOf(imps[i]);
  }

  /** The constructor's inner loop: each token that is not disallowed is offered under desc. */
  method OfferTokens(avail: map<string, string>, toks: seq<string>, desc: string) returns (r: map<string, string>)
    ensures r == AddTokens(avail, toks, desc)
  {
    r := avail;
    var j := 0;
    while j < |toks|
      invariant j <= |toks| && r == AddTokens(avail, toks[..j], desc)
    {
      assert toks[..j + 1][..j] == toks[..j];
      if !Disallowed(toks[j]) {
        r := r[toks[j] := desc];
      }
      j := j + 1;
    }
    assert toks[..j] == toks;
  }

  /** One pass of the constructor's loop: an importer with extensions and a description offers its tokens. */
  method OfferImporter(avail: map<string, string>, imp: ImporterInfo) returns (r: map<string, string>)
    ensures r == AddTokens(avail, Offered(imp), Description(imp.name))
  {
    r := avail;
    var ext := Trim(imp.exts);
    if ext != "" {
      var desc := GetImporterDescription(imp.name);
      if desc != "" {
        r := OfferTokens(avail, Tokens(ext, ' '), desc);
      }
    }
  }

  class Importer {
    const formats: IOFormats.Formats
    const available: map<string, string>
    const loadTextures: bool
    const failOnNonTriangles: bool

    /** The registry is consistent, and every offered extension is a plain word, as Assimp's are. */
    ghost predicate Valid()
      reads formats
    {
      formats.Valid() && forall e :: e in available ==> IOFormats.PlainWord(e)
    }

    /**
     * The constructor goes through Assimp's importers and offers each
     * extension token of an importer with extensions and a description;
     * no format is enabled yet.
     */
    constructor (loadTex: bool, failOnNonTri: bool, imps: seq<ImporterInfo>)
      requires forall e :: e in Available(imps) ==> IOFormats.PlainWord(e)
      ensures Valid() && fresh(formats)
      ensures available == Available(imps) && loadTextures == loadTex && failOnNonTriangles == failOnNonTri
      ensures formats.exts == [] && formats.descs == map[] && formats.err == ""
    {
      var f := new IOFormats.Formats();
      var avail: map<string, string> := map[];
      var i := 0;
      while i < |imps|
        invariant i <= |imps| && avail == Available(imps[..i])
        invariant f.Valid() && f.exts == [] && f.descs == map[] && f.err == ""
      {
        AvailableStep(imps, i);
        avail := OfferImporter(avail, imps[i]);
        i := i + 1;
      }
      assert imps[..i] == imps;
      formats := f;
      available := avail;
      loadTextures := loadTex;
      failOnNonTriangles := failOnNonTri;
    }

    /** enableFormat: idempotent; an offered extension becomes supported once, an extension not offered changes nothing. */
    method EnableFormat(ext: string) returns (ok: bool)
      requires Valid()
      modifies formats
      ensures Valid() && formats.err == old(formats.err)
      ensures ok <==> ext in available
      ensures ok ==> ToLower(ext) in formats.descs
      ensures !ok || ToLower(ext) in old(formats.descs) ==>
        formats.exts == old(formats.exts) && formats.descs == old(formats.descs)
      ensures ok && ToLower(ext) !in old(formats.descs) ==>
        && formats.exts == old(formats.exts) + [ToLower(ext)]
        && formats.descs == old(formats.descs)[ToLower(ext) := Trim(available[ext])]
    {
      ok := IOFormats.EnableOffered(formats, available, ext);
    }

    /**
     * doLoad: `scene` is what Assimp's ReadFile produced (None when it
     * could not read the file); the mesh is built from it, and either failure
     * leaves its error.
     */
    method DoLoad(fname: string, scene: Option<AiSceneIn>, oracle: seq<MeshOracle>, images: map<string, Images.Image>)
      returns (model: Option<seq<Call>>)
      requires Valid()
      requires scene.Some? ==> SceneFits(scene.value, oracle)
      modifies formats
      ensures Valid() && formats.exts == old(formats.exts) && formats.descs == old(formats.descs)
      ensures scene.None? ==> model.None? && formats.err == READ_FAILED + fname
      ensures scene.Some? ==>
        var sc, src := scene.value, TextureSource(loadTextures, Paths.ParentPath(fname), images);
        && (model.None? <==> |sc.meshes| == 0 || FailsBy(sc, failOnNonTriangles, |sc.meshes|))
        && (model.Some? ==> model.value == SceneCalls(sc, oracle, src, |sc.meshes|) && formats.err == old(formats.err))
        && (model.None? ==> formats.err == TRANSLATE_FAILED)
    {
      if scene.None? {
        formats.SetErr(READ_FAILED + fname);
        return None;
      }
      var src := TextureSource(loadTextures, Paths.ParentPath(fname), images);
      model := CreateMesh(scene.value, oracle, src, failOnNonTriangles);
      if model.None? {
        formats.SetErr(TRANSLATE_FAILED);
      }
    }

    /** MeshImporter::load on an AssetImporter: the filename guard, then doLoad. */
    method Load(fname: string, scene: Option<AiSceneIn>, oracle: seq<MeshOracle>, images: map<string, Images.Image>)
      returns (model: Option<seq<Call>>)
      requires Valid()
      requires scene.Some? ==> SceneFits(scene.value, oracle)
      modifies formats
      ensures Valid() && formats.exts == old(formats.exts) && formats.descs == old(formats.descs)
      ensures !formats.IsSupported(fname) ==> model.None? && formats.err == MeshImporter.Unsupported(fname)
      ensures formats.IsSupported(fname) && scene.None? ==> model.None? && formats.err == READ_FAILED + fname
      ensures formats.IsSupported(fname) && scene.Some? ==>
        var sc := scene.value;
        && (model.None? <==> |sc.meshes| == 0 || FailsBy(sc, failOnNonTriangles, |sc.meshes|))
        && (model.Some? ==> model.value == SceneCalls(sc, oracle, TextureSource(loadTextures, Paths.ParentPath(fname), images), |sc.meshes|))
        && formats.err == (if model.Some? then "" else TRANSLATE_FAILED)
    {
      var proceed := MeshImporter.CheckLoad(formats, fname);
      if !proceed {
        return None;
      }
      model := DoLoad(fname, scene, oracle, images);
    }
  }
}
