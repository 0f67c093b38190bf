/**
 * MeshImporter::load: the checks every importer makes on the filename
 * before its own doLoad runs.
 */
module MeshImporter {

  import opened IOFormats

  function Unsupported(fname: string): string
  {
    fname + " has an unsupported file extension for importing!"
  }

  /**
   * The guard sequence of load: the error is cleared first, then an
   * unsupported name (the empty name included) fails. doLoad runs exactly
   * when `proceed` is true, and its result is load's result.
   */
  method CheckLoad(f: Formats, fname: string) returns (proceed: bool)
    requires f.Valid()
    modifies f
    ensures f.Valid() && f.exts == old(f.exts) && f.descs == old(f.descs)
    ensures proceed <==> f.IsSupported(fname)
    ensures fname == "" ==> !proceed
    ensures proceed ==> f.err == ""
    ensures !proceed ==> f.err == Unsupported(fname)
  {
    f.SetErr("");
    if !f.IsSupported(fname) {
      f.SetErr(Unsupported(fname));
      return false;
    }
    proceed := true;
  }
}
