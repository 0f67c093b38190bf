/**
 * The part of the file system the exporters observe: which paths currently
 * name regular files. Writing a file creates it; removing deletes it.
 */
module Files {

  class FileSystem {
    var regular: set<string>

    constructor (initial: set<string>)
      ensures regular == initial
    {
      regular := initial;
    }

    /** exists(p) && is_regular_file(p); the empty path names no file. */
    predicate IsRegularFile(p: string)
      reads this
    {
      p != "" && p in regular
    }

    /** Opening p for writing creates it as a regular file. */
    method Create(p: string)
      modifies this
      ensures regular == old(regular) + {p}
    {
      regular := regular + {p};
    }

    /** Files written by calls the library makes into other code (cv::imwrite). */
    method CreateEach(ps: set<string>)
      modifies this
      ensures regular == old(regular) + ps
    {
      regular := regular + ps;
    }

    /** boost::filesystem::remove. */
    method Remove(p: string)
      modifies this
      ensures regular == old(regular) - {p}
    {
      regular := regular - {p};
    }
  }
}
