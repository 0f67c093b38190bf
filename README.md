# r3dio in Dafny

r3dio is the input/output layer of the r3d mesh library. It has four parts:

- **A format registry.** `IOFormats` maps lower-case filename extensions to descriptions and keeps the last error message. Every importer and exporter carries one.
- **The save and load guards.** `MeshExporter::save` and `MeshImporter::load` check the filename against that registry before running the format-specific `doSave` / `doLoad`.
- **The format back ends:**
  - PLY, OBJ (with its `.mtl` material library) and IDTF text writers;
  - a U3D exporter that writes IDTF and runs the external `IDTFConverter`;
  - Assimp-backed exporters and importers;
  - a raw TGA image reader and writer.
- **Small utilities.** The LaTeX text sanitiser, and the `loadMesh` / `saveMesh` helpers that choose a back end from a filename's extension.

The model has one Dafny module per source file, plus some shared modules:

- `Wrappers`: Option.
- `Text`: characters, trimming, lower-casing, `replace_all`, decimal rendering, and the written-lines model `Line`/`Out`.
- `Paths`: the POSIX part of `boost::filesystem::path`.
- `Meshes`: an `r3d::Mesh` as a value.
- `Remap` and `Sorting`: the id tables and the ordered `IntSet` iteration the writers rely on.
- `Images`: a `cv::Mat` as a value.
- `Files`: a `FileSystem` class whose `regular` set the savers update.

Source classes whose methods update fields are Dafny classes:

- `IOFormats.Formats`;
- the `Exporter` class of each exporter module;
- `AssetImporter.Importer` and `AssetImporter.MaterialTextures`;
- `U3dExporter.Converter`;
- `Files.FileSystem`.

C++ inheritance (`IOFormats` ← `MeshExporter` ← concrete exporter) is modelled by composition: each exporter object owns a `formats: IOFormats.Formats`.

Text written to a stream is a sequence of lines, each an indentation plus tokens. Tokens are separated by single spaces, except that a keyword token (`K`) is followed by a tab, as the OBJ writer does after `v`, `vt` and `f`. An `Out` pairs those lines with the text of the exception caught while writing them (`""` when none was caught).

Loops in the source are `while` loops with invariants, proved against a specification function. Each spec function has its properties proved as lemmas: a permutation, a round trip, a one-to-one numbering, or a layout.

## Model

| member | source | states |
|---|---|---|
| Text.ToLower | src/IOFormats.cpp:41 | `to_lower` keeps the length and position of every character, and only changes 'A'..'Z' |
| Text.ToLowerIdempotent | src/IOFormats.cpp:50 | lower-casing twice is lower-casing once |
| Text.TrimSlice | src/IOFormats.cpp:30 | what `trim` keeps is a contiguous slice of its input with no whitespace at either end, and only whitespace is dropped |
| Text.TrimIdempotent | src/IOFormats.cpp:102 | trimming an already trimmed description changes nothing |
| Text.ReplaceCharAppend | src/LatexWriter.cpp:166-177 | `replace_all` with a one-character pattern works on each part of a concatenation separately |
| Text.ReplaceCharAbsent | src/LatexWriter.cpp:166-177 | `replace_all` leaves a string without the searched character unchanged |
| Text.RemoveChar | src/AssetImporter.cpp:306 | `replace_all(s, "\n", "")` leaves no occurrence of the character, and keeps every other character |
| Text.RemoveCharUnit | src/AssetImporter.cpp:306 | on a single character, removal drops it exactly when it is the removed one |
| Text.RemoveCharAppend | src/AssetImporter.cpp:306 | removal works on each part of a concatenation separately, so the kept characters stay in order |
| Text.RemoveCharAbsent | src/AssetImporter.cpp:306 | a string without the character is left unchanged |
| Text.IntToStringInjective | src/OBJExporter.cpp:34-40 | different material ids render as different decimal strings, so material names built from them differ |
| Text.ParseNatToString | src/OBJExporter.cpp:34-40 | the decimal rendering of a natural number parses back to it |
| Text.Tokens | src/AssetImporter.cpp:348-349 | the tokenizer splitting on spaces yields only non-empty tokens without a space |
| Text.TokensAreRuns | src/AssetImporter.cpp:348-349 | a string is a token exactly when it is a maximal run of non-separators in the input: non-empty, without a separator, and with a separator or an end of the input on each side |
| Text.TokensInOrder | src/AssetImporter.cpp:348-349 | the tokens, put back together, are the input with its separators removed: nothing is dropped, added or reordered |
| Text.TokensCharsFromInput | src/AssetImporter.cpp:348-349 | every extension token split from an importer's extension list is made of the list's own characters |
| Text.ConcatError | src/OBJExporter.cpp:239-245 | outputs written one after another end in an error exactly when one does, and then with the first such error |
| Paths.Extension | src/IOFormats.cpp:31-35 | `path::extension` is "" or starts with a dot, and is no longer than the filename |
| Paths.ExtensionSingleDot | src/IOFormats.cpp:35-40 | an extension is one dot followed by a part without dots |
| Paths.ExtensionEndsPath | src/IOFormats.cpp:31-35 | the extension is a suffix of the path |
| Paths.ReplaceExtensionGives | src/IOHelpers.cpp:76 | `replace_extension` with a plain word leaves exactly that word as the extension |
| Paths.ReplaceExtensionStem | src/OBJExporter.cpp:166 | replacing the extension keeps the stem |
| Paths.ParentPath | src/IDTFExporter.cpp:565 | `parent_path` drops the filename and the separators before it, but keeps "/" for a file in the root; it never ends in '/' otherwise |
| Paths.TrimSeparatorsPrefix | src/IDTFExporter.cpp:565 | the directory left after the separators before the filename are dropped is a prefix of the path, and only separators were dropped |
| Paths.SplitDir | src/AssetExporter.cpp:78 | for "dir/name" the parent path is dir without its trailing separators, and the filename is name |
| Paths.ExtensionNotDirectory | src/IOFormats.cpp:31-35 | a path with an extension does not end in a separator |
| Paths.Join | src/IDTFExporter.cpp:565-566 | `operator/=` leaves the directory unchanged for an empty name, gives the name for an empty directory, adds no separator when one is already there, and always ends in the name |
| Paths.FilenameOfJoin | src/OBJExporter.cpp:72 | a non-empty, separator-free name joined to a directory is the filename of the result |
| Paths.FilenameOfJoinAppend | src/IDTFExporter.cpp:588-590 | text without a separator appended to such a join extends its filename by that text |
| Paths.SplitPath | src/IDTFExporter.cpp:564-566 | for "dir/stem.e" the parent path is dir without its trailing separators and the stem is stem, including an empty stem |
| Paths.JoinStemOf | src/IDTFExporter.cpp:564-566 | the parent joined with the stem of "dir/stem.e" is "dir/stem", and just "dir" when the stem is empty, with dir's trailing separators dropped |
| Paths.StemOfFilename | src/OBJExporter.cpp:36 | the stem of a path's filename is the path's stem |
| Remap.DedupElements | src/IDTFExporter.cpp:279-307 | the vertex and uv lists the IDTF writer builds hold exactly the ids it met |
| Remap.DedupDistinct | src/IDTFExporter.cpp:289-305 | those lists hold no id twice |
| Remap.DedupOrder | src/IDTFExporter.cpp:279-307 | ids appear in the list in the order they are first met |
| Remap.IndexMapPositions | src/IDTFExporter.cpp:289-305 | for a list without repeats, the id→index table sends the i-th listed id back to i |
| Remap.IndexMapInverse | src/PLYExporter.cpp:53-60 | the table sends every listed id to a position that holds it |
| Remap.OneBasedPositions | src/OBJExporter.cpp:101-115 | the `vvmap[id] = ++i` table sends the i-th listed id to i + 1 and stays within 1..n |
| Remap.OneBasedInverse | src/OBJExporter.cpp:101-115 | every id the `++i` table numbers n sits at position n - 1 of the written list |
| Remap.KeepKeep | src/OBJExporter.cpp:195-213 | erasing two sets of face ids one after the other erases their union |
| Remap.KeepCount | src/OBJExporter.cpp:195-198 | erasing from a list without repeats removes one entry for each erased id it holds |
| Sorting.SortPermutation | src/OBJExporter.cpp:105-106 | iterating an `IntSet` in order visits a permutation of its ids |
| Sorting.SortAscending | src/OBJExporter.cpp:105-106 | the ids are visited in ascending order |
| Sorting.SortStrict | src/OBJExporter.cpp:140-141 | ids listed once are visited in strictly ascending order, so none twice |
| Meshes.RemainingExactly | src/OBJExporter.cpp:195-198 | the faces left after erasing every material's faces are exactly the faces without a material, each once |
| Meshes.ValidFaceCount | src/OBJExporter.cpp:81-86 | in a valid mesh, the faces the materials claim plus the faces left over add up to `numFaces()` |
| IOFormats.GetExtension | src/IOFormats.cpp:27-43 | the extension compared is already in lower case |
| IOFormats.GetExtensionNoDot | src/IOFormats.cpp:35-41 | the extension compared holds no dot: the leading one is dropped and `path::extension` has no other |
| IOFormats.GetExtensionOfDotted | src/IOFormats.cpp:27-43 | a name ending in "." + e, for a plain word e, is looked up under e in lower case |
| IOFormats.NormaliseExtShape | src/IOFormats.cpp:82-87 | the normalised key is non-empty with no dot at either end whenever the trimmed, lower-cased input has a non-dot character |
| IOFormats.NormaliseExtLower | src/IOFormats.cpp:82 | the normalised key is in lower case |
| IOFormats.PlainWordKey | src/IOFormats.cpp:56-104 | a plain word is registered under its lower-case form, which is also the key every filename ending in it looks up |
| IOFormats.ReplacedExtension | src/IOHelpers.cpp:74-78 | replacing a filename's extension with a lower-case word gives a non-empty name whose registry extension is that word |
| IOFormats.RegisterWord | src/IOFormats.cpp:80-104 | `addSupported` of a lower-case word registers the word itself: it succeeds exactly when the word is new, and then appends it and records the description |
| IOFormats.EnableOffered | src/AssetImporter.cpp:360-370 | `enableFormat` succeeds exactly when Assimp offers the extension; it registers the lower-case form once and leaves the registry as it was otherwise |
| IOFormats.Formats.constructor | include/r3dio/IOFormats.h:39 | a new registry has no extension, no description and no error |
| IOFormats.Formats.IsSupported | src/IOFormats.cpp:56-69 | a name is supported exactly when its extension is registered; never for an empty name or a name without an extension |
| IOFormats.Formats.HasAny | include/r3dio/IOFormats.h:57 | `isSupported()` holds exactly when some extension is registered |
| IOFormats.Formats.GetDescription | src/IOFormats.cpp:48-53 | the description comes back trimmed |
| IOFormats.GetDescriptionIgnoresCase | src/IOFormats.cpp:48-53 | two spellings of an extension that lower-case alike, and the lower-case spelling itself, have the same description |
| IOFormats.Formats.SetErr | src/IOFormats.cpp:73-76 | only the error message changes |
| IOFormats.Formats.AddSupported | src/IOFormats.cpp:80-104 | it succeeds exactly when the normalised key is new, and then appends it with the trimmed description; a duplicate changes nothing |
| MeshExporter.CheckSave | src/MeshExporter.cpp:24-40 | `doSave` runs exactly when the name is non-empty and supported. An empty name sets the empty-filename error and leaves the error unclear otherwise. An unsupported name sets the unsupported error. A name that proceeds has its error cleared first |
| MeshImporter.CheckLoad | src/MeshImporter.cpp:25-35 | the error is cleared first; `doLoad` runs exactly when the name is supported, never for an empty name; an unsupported name sets the unsupported error |
| LatexWriter.SanitEscapes | src/LatexWriter.cpp:164-179 | the eleven `replace_all` passes, in their order, escape each character independently (no pass rewrites text an earlier pass produced) |
| LatexWriter.SanitProperties | src/LatexWriter.cpp:164-179 | sanit distributes over concatenation, returns text without special characters unchanged, never shortens, and lengthens exactly when a special character is present |
| LatexWriter.PassAll | src/LatexWriter.cpp:168-177 | each pass turns the result of the passes before it into the result of one more pass |
| TgaImage.ShortRoundTrip | src/TGAImage.cpp:54-60 | a short written as two little-endian bytes reads back as itself |
| TgaImage.DecodeEncode | src/TGAImage.cpp:49-84 | `setFromArray` reads back every header field the constructor wrote |
| TgaImage.EncodeDecode | src/TGAImage.cpp:49-84 | every 18-byte array is the encoding of the header it decodes to |
| TgaImage.HeaderForShape | src/TGAImage.cpp:66-70 | the header records type 2 for colour and 3 for grey, 8 bits per channel, cols by rows, and zero elsewhere |
| TgaImage.SaveTga | src/TGAImage.cpp:92-136 | saveTGA succeeds exactly when the image is 8-bit with 1, 3 or 4 channels, the file opens, and the device holds the whole file. The file is created whenever the image passes the checks and the file opens. What is written is the header and the rows, last row first, cut at the device's capacity |
| TgaImage.WriteRows | src/TGAImage.cpp:121-125 | the row loop writes rows last to first, each cut short once the device is full |
| TgaImage.SavedAll | src/TGAImage.cpp:128-132 | all pixel bytes went out exactly when the device had room for the whole file |
| TgaImage.LoadTga | src/TGAImage.cpp:139-173 | loadTGA agrees with its specification: empty for a missing file or a short header, empty after a short read, and otherwise the rows read last to first. Fewer than 8 bits per pixel gives OpenCV's 512-channel type |
| TgaImage.MatChannels | src/TGAImage.cpp:158 | `CV_8UC(bits/8)` has bits/8 channels, and 512 when that is 0 |
| TgaImage.LoadZeroChannels | src/TGAImage.cpp:158-169 | a header with fewer than 8 bits per pixel does not throw: the 512-channel rows outrun a short file and the result is empty |
| TgaImage.ReadRows | src/TGAImage.cpp:159-163 | the read loop fills rows last to first, each with a read of up to cols × channels bytes |
| TgaImage.ConsumedMin | src/TGAImage.cpp:162-165 | the reads stop early only when the stream runs out |
| TgaImage.UnstackBottomUp | src/TGAImage.cpp:121-163 | reading back rows written last row first restores them in their original order |
| TgaImage.LoadSaved | src/TGAImage.cpp:92-173 | loadTGA of the bytes saveTGA writes for a saveable image returns that image |
| PlyExporter.WriteVertices | src/PLYExporter.cpp:53-60 | the vertex loop writes every vertex's position in `vtxIds` order and numbers them 0, 1, 2, … |
| PlyExporter.WriteFaces | src/PLYExporter.cpp:62-67 | the face loop writes "3" and the three looked-up corners of each face; a failed lookup stops it with `.at`'s error |
| PlyExporter.WritePly | src/PLYExporter.cpp:42-67 | the try block writes the header, then the vertex lines, then the face lines |
| PlyExporter.Counts | src/PLYExporter.cpp:42-60 | the header's counts are the numbers of vertex and face lines that follow, and the i-th vertex line holds the i-th id's position |
| PlyExporter.ErrorIff | src/PLYExporter.cpp:62-77 | writing fails exactly when some face has a corner that is not a listed vertex, and then reports `.at`'s error |
| PlyExporter.FaceIndices | src/PLYExporter.cpp:62-67 | for a valid mesh writing completes, and face line k is "3 i j l" with i, j and l the positions of face k's corners, in winding order and below `numVtxs()` |
| PlyExporter.Numbering | src/PLYExporter.cpp:55-58 | vertex ids are numbered 0, 1, 2, … in `vtxIds` order |
| PlyExporter.FaceLinesBound | src/PLYExporter.cpp:62-67 | at most one line is written per face |
| PlyExporter.Exporter.constructor | src/PLYExporter.cpp:25-28 | the exporter registers "ply" only |
| PlyExporter.Exporter.DoSave | src/PLYExporter.cpp:32-80 | the file is created when it opens and then holds the text. The result is true exactly when no lookup failed. A failure sets "Unable to write…" plus the lookup error |
| PlyExporter.Exporter.Save | src/MeshExporter.cpp:24-40 | the filename guards, then doSave's outcome; a refused name writes nothing |
| ObjExporter.WriteVertices | src/OBJExporter.cpp:101-115 | the vertices are written in ascending id order, the i-th numbered i + 1 |
| ObjExporter.VertexNumbering | src/OBJExporter.cpp:101-115 | each vertex is listed once, in ascending order, numbered i + 1, and exactly the mesh's vertices are numbered |
| ObjExporter.WriteMaterialUVs | src/OBJExporter.cpp:118-133 | a material's uv ids are written in ascending order, numbered from 1 in a table of their own, then a blank line |
| ObjExporter.UvNumbering | src/OBJExporter.cpp:118-133 | the uv numbering restarts at 1 for every material and never exceeds the material's uv count |
| ObjExporter.WriteMaterialFaces | src/OBJExporter.cpp:136-152 | a material's faces are visited in ascending order, each erased from the remaining faces and then written with its looked-up numbers |
| ObjExporter.MaterialFacesComplete | src/OBJExporter.cpp:136-152 | writing material faces fails with `.at`'s error exactly when a corner or texture corner is missing from its table; otherwise face k's line is "f<tab>a/ta b/tb c/tc" for its corners |
| ObjExporter.PlainFacesComplete | src/OBJExporter.cpp:215-229 | writing the remaining faces fails exactly when a corner is not a numbered vertex; otherwise face k's line is "f<tab>a b c" |
| ObjExporter.MaterialBlockHead | src/OBJExporter.cpp:200-213 | every material block opens with its uv count comment, its uv lines, two blank lines, the face comment and `usemtl` |
| ObjExporter.RemainderLayout | src/OBJExporter.cpp:215-229 | the remainder block is empty when no face is left, and otherwise holds the pseudo material's `usemtl` and one line per face |
| ObjExporter.WriteRemainder | src/OBJExporter.cpp:215-229 | the faces left over are written in ascending order under the pseudo material, and nothing is written when none are left |
| ObjExporter.WriteMaterials | src/OBJExporter.cpp:200-213 | doSave's material loop writes each material's block and erases its faces from the remaining ones, stopping at a failed lookup |
| ObjExporter.WriteObj | src/OBJExporter.cpp:178-229 | the try block writes the header, `mtllib` when there is a library, the vertices, the material blocks and the remainder |
| ObjExporter.ObjComplete | src/OBJExporter.cpp:178-229 | for a valid mesh every lookup succeeds and the whole OBJ text is written |
| ObjExporter.PseudoIdClash | src/OBJExporter.cpp:60-78 | as written, the pseudo material id (last visited id plus one) can be the id of a material of a valid mesh that has faces left over |
| ObjExporter.FreshPseudoIdFresh | src/OBJExporter.cpp:60-78 | the corrected pseudo id, one more than the largest id visited, is larger than every material id, in any visiting order |
| ObjExporter.FreshPseudoIdAscending | src/OBJExporter.cpp:60-78 | when the ids are visited in ascending order the corrected id is the one the source computes |
| ObjExporter.MaterialNamesAgree | src/OBJExporter.cpp:163-173 | the material library is the OBJ name with extension "mtl", and both files name each material alike, so every `usemtl` names a `newmtl` |
| ObjExporter.PseudoMaterialAgrees | src/OBJExporter.cpp:81-86 | for a valid mesh the library declares the pseudo material (nfaces < numFaces) exactly when the OBJ file has faces left over |
| ObjExporter.WriteMaterialFile | src/OBJExporter.cpp:44-96 | writeMaterialFile writes an entry per material, then the pseudo material when faces are left over, and reports the first image write that throws |
| ObjExporter.WriteEntries | src/OBJExporter.cpp:60-78 | the material file's loop writes an entry per material, counts their faces, and keeps the pseudo material id |
| ObjExporter.MtlEntriesThrow | src/OBJExporter.cpp:60-95 | the material loop is cut short exactly when some material's image write throws, and then by the first such material, with its text |
| ObjExporter.MtlEntriesWritten | src/OBJExporter.cpp:60-78 | when no image throws, every material is declared with `newmtl`, and the images written are exactly those of the textured materials |
| ObjExporter.MtlDeclaresObjMaterials | src/OBJExporter.cpp:44-229 | a material file written without a throw declares every material the OBJ file of the same stem uses |
| ObjExporter.ImageThrowAborts | src/OBJExporter.cpp:163-173 | when an image write throws with a message, doSave fails with "Unable to write OBJ .mtl file! " plus the first such message, and the OBJ file is not written |
| ObjExporter.ValidSaveSucceeds | src/OBJExporter.cpp:158-246 | a valid mesh whose images are all written is saved: doSave succeeds, and the OBJ file, when it opens, holds the whole text |
| ObjExporter.SaveSucceedsWhen | src/OBJExporter.cpp:158-246 | doSave succeeds when the material file reports no error and the OBJ text is complete |
| ObjExporter.MtlLibListed | src/OBJExporter.cpp:178-188 | a written OBJ file names the material library on its third line exactly when the mesh has materials |
| ObjExporter.SavedMaterialsDeclared | src/OBJExporter.cpp:158-246 | after a successful save of a valid mesh with materials, the material file declares every material the OBJ file uses |
| ObjExporter.SavedMtlComplete | src/OBJExporter.cpp:158-246 | a successful save of a mesh with materials wrote the whole material file |
| ObjExporter.Exporter.constructor | src/OBJExporter.cpp:27-30 | the exporter registers "obj" only |
| ObjExporter.Exporter.DoSave | src/OBJExporter.cpp:158-246 | the files created, the texts written, the error set and the result all agree with the save specification. The material file comes first when there are materials, and its failure ends the save |
| ObjExporter.Exporter.Save | src/MeshExporter.cpp:24-40 | the filename guards, then doSave; a refused name writes nothing |
| IdtfExporter.PartitionFaces | src/IDTFExporter.cpp:265-271 | a mesh without materials exports every face; otherwise exactly the faces of its first material, each once |
| IdtfExporter.Build | src/IDTFExporter.cpp:263-308 | the ModelResource constructor's loop builds exactly the vertex list, uv list, tables and coordinates of the specification |
| IdtfExporter.AddFace | src/IDTFExporter.cpp:279-307 | one pass of the loop extends the lists as if the face had been met along with the earlier ones |
| IdtfExporter.FaceUVIdsExactly | src/IDTFExporter.cpp:282-295 | the uv ids collected are exactly the uv ids of the exported faces that carry a material |
| IdtfExporter.VertexTable | src/IDTFExporter.cpp:298-306 | the vertex list holds each corner id of the exported faces once, and `_vmap` sends each to its position |
| IdtfExporter.UvTable | src/IDTFExporter.cpp:285-294 | the uv list holds each uv id once, `_uvmap` sends each to its position, and the listed coordinates are the exported material's |
| IdtfExporter.TableSizes | src/IDTFExporter.cpp:263-308 | each table has one entry per listed id, and one texture coordinate is listed per uv id |
| IdtfExporter.ValidDereferenceable | src/IDTFExporter.cpp:279-307 | a valid mesh has every corner and uv triple the constructor dereferences |
| IdtfExporter.FaceCounts | src/IDTFExporter.cpp:336-409 | FACE_COUNT is the number of entries in the face position, normal and shading lists |
| IdtfExporter.PositionCount | src/IDTFExporter.cpp:336-467 | MODEL_POSITION_COUNT is the number of entries in the position list |
| IdtfExporter.NormalCount | src/IDTFExporter.cpp:336-485 | MODEL_NORMAL_COUNT is the number of entries in the normal list |
| IdtfExporter.TextureCount | src/IDTFExporter.cpp:336-497 | MODEL_TEXTURE_COORD_COUNT is the number of entries in the texture coordinate list |
| IdtfExporter.Winding | src/IDTFExporter.cpp:374-385 | the k-th index written for a face points at the position-list entry of that face's k-th corner |
| IdtfExporter.NormalIndices | src/IDTFExporter.cpp:388-397 | face j names normals 3j, 3j+1 and 3j+2, so the faces name each normal exactly once |
| IdtfExporter.Media9 | src/IDTFExporter.cpp:449-455 | the media9 axis permutation (x, y, z) ↦ (x, -z, y) loses nothing: it has an inverse |
| IdtfExporter.PositionsWritten | src/IDTFExporter.cpp:442-467 | the position list holds exactly the vertices of the exported faces, each once: every face vertex has an entry holding its position (through the media9 permutation when that is on), and every entry is some face vertex's |
| IdtfExporter.FaceCornersPlaced | src/IDTFExporter.cpp:374-385 | the k-th index written for face j points at a position-list entry holding the placed position of that face's k-th corner |
| IdtfExporter.TextureCoordsPadded | src/IDTFExporter.cpp:488-497 | each texture coordinate is written as its u and v padded with two zeros |
| IdtfExporter.FaceTextureCoordsComplete | src/IDTFExporter.cpp:411-438 | the face texture list writes three lines per face and no error when every face's uv ids are listed |
| IdtfExporter.FaceTextureCoordsError | src/IDTFExporter.cpp:411-438 | whatever stops the face texture list is a failed `_uvmap.at` lookup |
| IdtfExporter.WriteMeshComplete | src/IDTFExporter.cpp:310-324 | for a valid mesh the MESH block is written whole |
| IdtfExporter.TextureBlocks | src/IDTFExporter.cpp:310-324 | a mesh without materials gets neither texture list; one with materials gets the face texture list after the shading list and the coordinate list last |
| IdtfExporter.WriteFileError | src/IDTFExporter.cpp:502-552 | the only exception _writeFile can catch is the failed uv lookup |
| IdtfExporter.WriteFileComplete | src/IDTFExporter.cpp:502-552 | for a valid mesh _writeFile reports no error and writes every block in order |
| IdtfExporter.TailNamesTexture | src/IDTFExporter.cpp:181-201 | the shader names Texture0 and counts one active texture exactly when a TGA file was given |
| IdtfExporter.TailDeclaresTexture | src/IDTFExporter.cpp:247-258 | the file declares Texture0, read from the TGA file, exactly when one was given |
| IdtfExporter.TgaNameExtension | src/IDTFExporter.cpp:564-590 | the texture file is always named with extension ".tga" |
| IdtfExporter.TgaNamePlacement | src/IDTFExporter.cpp:564-590 | the texture file is named stem plus "_M0.tga"; with an empty stem it is the parent directory's path plus "_M0.tga" |
| IdtfExporter.TgaNameOf | src/IDTFExporter.cpp:564-590 | for "dir/stem.e" the texture file is "dir/stem_M0.tga", and "dir_M0.tga" when the stem is empty; trailing separators of dir are dropped, so "d//.idtf" gives "d_M0.tga" |
| IdtfExporter.SaveRecordsCreated | src/IDTFExporter.cpp:559-606 | every file doSave creates is one it records, so the next `_reset` can delete it |
| IdtfExporter.SaveErrors | src/IDTFExporter.cpp:559-606 | doSave reports the missing texture, or the caught lookup, or fails silently when saveTGA fails. A missing texture stops it before any file is recorded or created |
| IdtfExporter.SaveOutcome | src/IDTFExporter.cpp:559-606 | for a valid mesh doSave succeeds exactly when the exported mesh has no material, or its first texture is non-empty and saveTGA writes it whole |
| IdtfExporter.Exporter.constructor | src/IDTFExporter.cpp:35-39 | the exporter registers "idtf" and records no file |
| IdtfExporter.Exporter.Reset | src/IDTFExporter.cpp:47-66 | with deletion on, the recorded IDTF and TGA files that are regular files are removed, and the records are forgotten |
| IdtfExporter.Exporter.DoSave | src/IDTFExporter.cpp:559-606 | `_reset`, then the texture (recorded before it is written), then the IDTF file. Result, texts, records, error and created files all agree with the save specification |
| IdtfExporter.Exporter.SaveTexture | src/IDTFExporter.cpp:586-591 | the TGA name is the parent path joined with the stem, plus "_M0.tga" (so "dir_M0.tga" for an empty stem), recorded first, and saved with saveTGA |
| IdtfExporter.Exporter.WriteIdtf | src/IDTFExporter.cpp:601-605 | the IDTF file is recorded and written; an error from _writeFile becomes "Unable to write IDTF text file: " plus the error |
| IdtfExporter.Exporter.Save | src/MeshExporter.cpp:24-40 | the filename guards, then doSave; a refused name writes and records nothing |
| U3dExporter.CommandInjective | src/U3DExporter.cpp:75-78 | for names without quotes, the command line determines the converter, the input and the output |
| U3dExporter.ShellLineInjective | src/U3DExporter.cpp:79-83 | on either platform the shell line determines the command it wraps |
| U3dExporter.IdtfNameSupported | src/U3DExporter.cpp:111 | the intermediate name is never empty, and the IDTF exporter supports it |
| U3dExporter.Converter.constructor | src/U3DExporter.cpp:37 | the converter name starts as given |
| U3dExporter.Exporter.constructor | src/U3DExporter.cpp:51-61 | an empty converter name becomes "IDTFConverter"; "u3d" is registered exactly when the converter is available |
| U3dExporter.Exporter.DoSave | src/U3DExporter.cpp:103-131 | the IDTF save comes first and the converter runs only if it succeeds. The result is both succeeding. The IDTF error wins over the conversion error |
| U3dExporter.Exporter.SaveIntermediate | src/U3DExporter.cpp:110-116 | a fresh IDTF exporter saves the mesh under the intermediate name, with its own error and records |
| U3dExporter.Exporter.Convert | src/U3DExporter.cpp:117-121 | the converter runs only after a successful IDTF save, and a non-zero status sets the conversion error |
| U3dExporter.Exporter.Save | src/MeshExporter.cpp:24-40 | the filename guards, then doSave; a refused name runs nothing |
| AssetExporter.AvailableDistinct | src/AssetExporter.cpp:242-274 | no offered extension is empty or disallowed, and no two offered extensions share a description |
| AssetExporter.AvailableMembers | src/AssetExporter.cpp:242-274 | an extension is offered exactly when some taken format entry has it |
| AssetExporter.AvailableLastWins | src/AssetExporter.cpp:242-274 | an offered extension carries the description of the last taken entry that has it |
| AssetExporter.MaterialMeshFaithful | src/AssetExporter.cpp:116-158 | a material's aiMesh reproduces its faces: face i's corner k indexes a vertex of its own holding that corner's position and texture coordinate |
| AssetExporter.PlainMeshFaithful | src/AssetExporter.cpp:161-196 | the aiMesh of the faces without material does the same, without texture coordinates |
| AssetExporter.SetMaterial | src/AssetExporter.cpp:116-158 | setMaterial builds the material's aiMesh and erases its faces from the remaining ones |
| AssetExporter.SetNonMaterialMesh | src/AssetExporter.cpp:161-196 | setNonMaterialMesh builds the aiMesh of the remaining faces |
| AssetExporter.CreateScene | src/AssetExporter.cpp:212-235 | every mesh of the scene is attached to its own part's material, and the root node lists every mesh |
| AssetExporter.MaterialNamesDistinct | src/AssetExporter.cpp:74-112 | different materials of a file get different names |
| AssetExporter.SharedTexture | src/AssetExporter.cpp:74-112 | every textured material refers to the same file, the stem with ".png" when the stem is non-empty |
| AssetExporter.TextureFileName | src/AssetExporter.cpp:94-99 | the texture file is the stem with ".png"; with an empty stem the path is the parent directory's plus ".png" and the name is the parent's own filename plus ".png" |
| AssetExporter.TexturePathOf | src/AssetExporter.cpp:90-99 | for "dir/stem.e" the texture is written to "dir/stem.png", and to "dir.png" when the stem is empty, with dir's trailing separators dropped |
| AssetExporter.SaveMaterialTexture | src/AssetExporter.cpp:74-112 | the material is named. A texture is recorded under the texture path (the parent joined with the stem, plus ".png"), and written unless the file exists. The error is set exactly when the file is missing and cannot be written |
| AssetExporter.BuildMaterials | src/AssetExporter.cpp:292-320 | the material loop stops at the first texture that cannot be saved, writing nothing. Otherwise it gives one part per material and leaves exactly the faces without material |
| AssetExporter.SceneLayout | src/AssetExporter.cpp:292-337 | part i is material i's, and a last blank part holds the faces without material when there are any |
| AssetExporter.SceneFaces | src/AssetExporter.cpp:292-337 | the scene of a valid mesh holds as many faces as the mesh |
| AssetExporter.BuildScene | src/AssetExporter.cpp:292-330 | the scene doSave exports, or the texture error with nothing written |
| AssetExporter.Exporter.constructor | src/AssetExporter.cpp:242-274 | the exporter offers exactly the taken Assimp formats and enables none |
| AssetExporter.Exporter.EnableFormat | src/AssetExporter.cpp:278-288 | an offered extension becomes supported once, under its lower-case form; an extension not offered changes nothing |
| AssetExporter.Exporter.DoSave | src/AssetExporter.cpp:292-337 | a texture that cannot be saved fails the save with nothing written. Otherwise the mesh's scene is exported in the format the extension names, and the created files are the texture (once) and the file |
| AssetExporter.Exporter.ExportScene | src/AssetExporter.cpp:322-337 | a failed export sets the error with Assimp's text; a successful one creates the file |
| AssetExporter.Exporter.Save | src/MeshExporter.cpp:24-40 | the filename guards, then doSave; a refused name writes nothing |
| AssetImporter.StripParensSettled | src/AssetImporter.cpp:285-298 | the removal stops only once nothing is enclosed in brackets |
| AssetImporter.StripParensIdempotent | src/AssetImporter.cpp:285-298 | removing again removes nothing more |
| AssetImporter.StripParensChars | src/AssetImporter.cpp:285-298 | the removal only deletes characters |
| AssetImporter.GroupRemoved | src/AssetImporter.cpp:285-298 | a bracketed group after bracket-free text goes whole, brackets included, and the removal carries on after it |
| AssetImporter.RemoveParentheticalContent | src/AssetImporter.cpp:285-298 | the loop on the string computes the removal, then trims |
| AssetImporter.RemoveLastShape | src/AssetImporter.cpp:305 | `replace_last` removes exactly one occurrence, the last, and nothing when there is none |
| AssetImporter.DescriptionShape | src/AssetImporter.cpp:301-309 | a description has no line break and no surrounding whitespace |
| AssetImporter.GetImporterDescription | src/AssetImporter.cpp:301-309 | the description is computed by the source's loop and agrees with its specification |
| AssetImporter.AvailableMembers | src/AssetImporter.cpp:337-355 | an extension is offered exactly when some importer with a description lists it and it is not disallowed |
| AssetImporter.AvailableLastWins | src/AssetImporter.cpp:337-355 | a later importer that lists an extension overwrites its description, and one that does not leaves it as it was |
| AssetImporter.AvailableShape | src/AssetImporter.cpp:337-355 | every offered extension is a token without spaces, and its description is non-empty, trimmed and on one line |
| AssetImporter.OfferTokens | src/AssetImporter.cpp:348-354 | the inner loop offers each token that is not disallowed under the importer's description |
| AssetImporter.ScanSlot | src/AssetImporter.cpp:129-181 | slot i holds the id addFace gave face i exactly when that face is a usable triangle whose id is valid and new, and -1 otherwise |
| AssetImporter.ScanDistinct | src/AssetImporter.cpp:167-177 | no face id appears in two slots |
| AssetImporter.ScanNonTriangles | src/AssetImporter.cpp:141-146 | nonTriangles is positive exactly when some face is not a triangle |
| AssetImporter.ScanTally | src/AssetImporter.cpp:129-181 | every face is counted once: as a non-triangle, as a duplicate, as kept, or as refused by addFace |
| AssetImporter.SetObjectFaces | src/AssetImporter.cpp:129-181 | the loop fills one slot per face and the two counters as specified, and hands addFace, for each usable triangle, the positions of its three corners in winding order (src/AssetImporter.cpp:160-163); it hands nothing for a non-triangle or a degenerate face |
| AssetImporter.HandedCorners | src/AssetImporter.cpp:160-163 | face i's entry in the positions handed to addFace is its three corner positions when it is a usable triangle, and empty otherwise |
| AssetImporter.MeshCorners | src/AssetImporter.cpp:160-163 | for every face of aiMesh i: the corner positions addFace receives, or nothing for a face that is skipped |
| AssetImporter.LoadImages | src/AssetImporter.cpp:50-67 | loadImages is all or nothing: it succeeds exactly when there is a file and every file loads, and then holds every image in order |
| AssetImporter.ChosenEmpty | src/AssetImporter.cpp:91-101 | a material yields a texture exactly when one of its three lists loads |
| AssetImporter.MaterialTextures.constructor | src/AssetImporter.cpp:75-80 | the constructor collects the file names of each texture type |
| AssetImporter.MaterialTextures.Load | src/AssetImporter.cpp:91-101 | the diffuse list is tried first, then ambient, then specular; the first that loads gives its first image |
| AssetImporter.UvCallsMembers | src/AssetImporter.cpp:184-202 | one uv call is made per face that got an id, with that face's corner coordinates |
| AssetImporter.SetObjectTextureCoordinates | src/AssetImporter.cpp:184-202 | the loop makes exactly the specified uv calls |
| AssetImporter.SceneCallsGrow | src/AssetImporter.cpp:205-273 | the calls made for the first j aiMeshes stay a prefix of the calls once more aiMeshes are imported |
| AssetImporter.ImportMesh | src/AssetImporter.cpp:215-265 | the import fails on this aiMesh exactly when non-triangles fail the import and the mesh has one. Otherwise its calls are the specified ones, and for a mesh with geometry the first adds the faces, each usable triangle with its corner positions |
| AssetImporter.SceneFacesAdded | src/AssetImporter.cpp:205-273 | the faces of every aiMesh with geometry, with their corner positions, are among the calls made for the scene |
| AssetImporter.CreateMesh | src/AssetImporter.cpp:205-273 | no mesh for a scene without aiMeshes, nor when non-triangles fail the import and some aiMesh has one. Otherwise every aiMesh's calls in order, and the model holds every aiMesh's faces with the positions of their corners |
| AssetImporter.Importer.constructor | src/AssetImporter.cpp:314-357 | the importer offers exactly the extensions of the specification and enables none |
| AssetImporter.Importer.EnableFormat | src/AssetImporter.cpp:360-370 | an offered extension becomes supported once; an extension not offered changes nothing |
| AssetImporter.Importer.DoLoad | src/AssetImporter.cpp:373-410 | a scene that cannot be read sets the read error. Otherwise the mesh built is the one createMesh specifies, and a refused scene sets the translation error |
| AssetImporter.Importer.Load | src/MeshImporter.cpp:25-35 | the filename guard, then doLoad: a supported name with a scene yields exactly the calls of every aiMesh, or nothing with the translation error |
| IOHelpers.EnableLoadFormat | src/IOHelpers.cpp:33-40 | after enabling the first k of the eight formats, the registered extensions are those among them that Assimp offers |
| IOHelpers.LoadMesh | src/IOHelpers.cpp:27-44 | nothing for an empty name. A mesh is returned only for a loadable name with a readable scene, and then with every aiMesh's calls and textures loaded. For such a name it is refused exactly when the scene is empty or has a non-triangle |
| IOHelpers.Dispatch | src/IOHelpers.cpp:53-62 | a key naming a helper goes to that helper; any other key goes to an AssetExporter |
| IOHelpers.DispatchNamed | src/IOHelpers.cpp:53-62 | a helper is chosen exactly when the key is its extension |
| IOHelpers.AsWrittenNeverNamed | src/IOHelpers.cpp:52-62 | as written, no helper is ever chosen, and the key handed on starts with a dot |
| IOHelpers.AsWrittenPlyExample | src/IOHelpers.cpp:52-62 | any file ending in ".ply", such as "mesh.ply", goes to an AssetExporter under ".ply", not to saveAsPLY |
| IOHelpers.AsWrittenNotOffered | src/IOHelpers.cpp:65-67 | no exporter offers the dotted key saveMesh passes on |
| IOHelpers.SaveMeshAsWritten | src/IOHelpers.cpp:47-71 | saveMesh as written never saves anything and changes no file |
| IOHelpers.SaveRouteNamed | src/IOHelpers.cpp:52-62 | with the dot dropped, a helper is chosen exactly when the file's extension is the helper's, in any case |
| IOHelpers.TargetRoutes | src/IOHelpers.cpp:74-115 | a helper's target name is never empty, carries the helper's extension, and would be routed to the same helper again |
| IOHelpers.AssimpSave | src/IOHelpers.cpp:65-67 | nothing happens unless the enabled exporter accepts the name. Otherwise it stops at a texture it cannot write, or exports the mesh's scene in the extension's format |
| IOHelpers.SaveAsPly | src/IOHelpers.cpp:74-78 | the PLY exporter writes the mesh under the ".ply" name; it succeeds exactly when no lookup fails |
| IOHelpers.SaveAsObj | src/IOHelpers.cpp:81-85 | the OBJ exporter saves the mesh under the ".obj" name, as the OBJ save specification says |
| IOHelpers.SaveAsStl | src/IOHelpers.cpp:95-101 | nothing is written when Assimp does not offer "stl"; a success exported in format "stl" and created the ".stl" file |
| IOHelpers.SaveAs3ds | src/IOHelpers.cpp:104-115 | a mesh with more than 65536 faces, or no "3ds" exporter, is refused with nothing written; a success exported in format "3ds" and created the ".3ds" file |

## Left out

- The external libraries are not modelled. Their results are parameters of the methods that call them:
  - Assimp's `ReadFile`, `Export` and importer/exporter listings;
  - OpenCV's `imread`/`imwrite`;
  - `r3d::Mesh::addFace`, `addMaterial`, `mergeMaterials` and `deepCopy`;
  - `std::system` and `boost::process::search_path`;
  - whether a stream opens, and how many bytes a device accepts.
- Floating-point values are opaque tokens. The model does not capture number formatting, `std::setprecision` or the comparison of `aiVector3D` positions.
- Several details of the data are not modelled:
  - `r3d::Mesh` is a value: its internals and its own invariants beyond `Meshes.Valid` are not modelled;
  - `IntSet` iteration order is unspecified, so each set the exporters iterate is a given sequence of the `Mesh` value (`vtxIds`, `faces`, `materialIds`, …), in any order;
  - the OBJ exporter's vertex, uv, material-face and remaining-face loops sort their ids first (`Sorting.Sort`), as the source does;
  - the OBJ material loops (in both the .mtl and the .obj file), the PLY vertex loop and the IDTF face loop visit the ids in the given order;
  - the TGA format's little-endian byte order is explicit, but C `short` overflow is excluded by requiring sides below 32768.
- Paths follow POSIX `boost::filesystem::path` (version 3) only. Windows separators are not modelled, and neither are root names: `//net` paths are treated like any other path.
- Paths.Filename: returns "" for a path that ends in '/', where boost gives ".", and "" rather than "/" for the root itself; Paths.Stem follows it. Such a path has no extension (Paths.ExtensionNotDirectory), so every save and load guard refuses it before a filename is taken.
- Files are tracked as a set of regular files. The model does not distinguish a file that `exists` from a regular file. Directories, permissions and file contents beyond the written lines are not modelled.
- Debug `assert`s and `std::cerr` diagnostics are not modelled.
- TgaImage.LoadTga: byte counts are exact integers. The source keeps `nc`, `bread` and `nc * m.rows` in C `int` (src/TGAImage.cpp:161-165), so once height × width × channels reaches 2^31 the product overflows, which is undefined behaviour. For example, a header with fewer than 8 bits per pixel gives 512 channels, and 4096 × 2048 × 512 = 2^32 wraps to 0 in practice, so an empty body would pass the check and the uninitialised matrix would be returned. TgaImage.LoadZeroChannels states the empty matrix for such headers, which holds only below that bound.
- TgaImage.SaveTga: likewise `bwrote` and `nc * m.rows` are C `int`s (src/TGAImage.cpp:121-127). Sides below 32768 with up to 4 channels can still reach 2^31 bytes, and the model does not capture that overflow.
- IOFormats.Formats.AddSupported: requires the trimmed, lower-cased extension to have a non-dot character. For an empty or all-dot extension the source indexes `lext[lext.size()-1]` on an empty string, so its empty-extension branch is reached only through undefined behaviour.
- IOFormats.Formats.GetDescription: requires the extension to be registered. The source asserts this and `.at` would throw otherwise.
- AssetExporter.SaveMaterialTexture: the zero ambient, diffuse and specular colour properties added at src/AssetExporter.cpp:80-85 are not recorded in the model's material; only its name and texture file are.
- IOHelpers.SaveAsStl: the success case states the format and the file created, not the whole exported scene. IOHelpers.AssimpSave states the scene.
- IOHelpers.SaveAs3ds: the same as SaveAsStl.
- `saveAsU3D` (src/IOHelpers.cpp:88-92) is modelled only as its route and target name (IOHelpers.TargetRoutes), not as a method. The U3DExporter header declares a two-argument constructor that the source's three-argument constructor does not match.
- The corrected `saveMesh` is modelled as its routing (IOHelpers.SaveRoute, SaveRouteNamed, TargetRoutes) and the helper methods it dispatches to, not as one method that calls them all.
- `_writeVWS` and the rest of LatexWriter apart from `sanit` are not modelled. They format text for LaTeXU3DInserter.
- PDFGenerator, which runs pdflatex, is not modelled.
- Every offered Assimp extension is assumed to be a plain word, with no dot or space. The Importer and Exporter `Valid` predicates carry this assumption.
- Concurrency is not modelled: the static `IDTFConverter` name is a field of a shared `Converter` object.

## Findings

| source | as written | input that shows it | evidently intended | confidence | as-written member | corrected member |
|---|---|---|---|---|---|---|
| src/IOHelpers.cpp:52-62 | the key is `to_lower(path.extension())`, which keeps the leading dot, and is compared with "ply", "obj", "u3d", "stl" and "3ds". No helper is ever chosen. The dotted key then goes to an AssetExporter, whose `enableFormat` refuses it, so nothing is saved | "mesh.ply": the key is ".ply", which is not "ply" and is not offered | the extension without its dot, as IOFormats' getExtension computes it | not executed | IOHelpers.SaveMeshAsWritten, IOHelpers.AsWrittenPlyExample | IOHelpers.SaveRouteNamed, IOHelpers.TargetRoutes |
| src/OBJExporter.cpp:60-78 | the pseudo material id is `pmid = mid+1` for the last material visited. `IntSet` iteration order is unspecified, so that id can belong to a material visited earlier | materialIds visited as [1, 0], with a face without material: pmid is 1, so "newmtl" and "usemtl" of material 1 appear twice and the leftover faces take material 1's texture | one more than the largest material id | not executed | ObjExporter.PseudoId, ObjExporter.PseudoIdClash | ObjExporter.FreshPseudoId, ObjExporter.FreshPseudoIdFresh, ObjExporter.FreshPseudoIdAscending |
