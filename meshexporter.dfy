/**
 * MeshExporter::save: the checks every exporter makes on the filename
 * before its own doSave runs.
 */
module MeshExporter {

  import opened IOFormats

  const EMPTY_FILENAME := "Empty filename passed to RModelIO::MeshExporter::save!"

  function Unsupported(fname: string): string
  {
    fname + " has an unsupported file extension for exporting!"
  }

  /**
   * The guard sequence of save: an empty name fails without clearing the
   * previous error; otherwise the error is cleared and an unsupported name
   * fails. doSave runs exactly when `proceed` is true.
   */
  method CheckSave(f: Formats, fname: string) returns (proceed: bool)
    requires f.Valid()
    modifies f
    ensures f.Valid() && f.exts == old(f.exts) && f.descs == old(f.descs)
    ensures proceed <==> fname != "" && f.IsSupported(fname)
    ensures proceed ==> f.err == ""
    ensures fname == "" ==> f.err == EMPTY_FILENAME
    ensures fname != "" && !proceed ==> f.err == Unsupported(fname)
  {
    if fname == "" {
      f.SetErr(EMPTY_FILENAME);
      return false;
    }
    f.SetErr("");
    if !f.IsSupported(fname) {
      f.SetErr(Unsupported(fname));
      return false;
    }
    proceed := true;
  }
}
