/**
 * The part of the operating system the remediator touches: the bytes stored
 * under each path, which paths are directories (with the files a walk of each
 * one yields), and which paths cannot be written.
 */
module FileSystem {
  import opened Wrappers

  type Path = string
  type Bytes = seq<bv8>

  /** `a` and `b` agree at `p`: both lack it, or both hold the same bytes. */
  ghost predicate SameAt(a: map<Path, Bytes>, b: map<Path, Bytes>, p: Path) {
    (p in a <==> p in b) && (p in a ==> a[p] == b[p])
  }

  /** `a` and `b` agree everywhere outside `touched`. */
  ghost predicate SameOutside(a: map<Path, Bytes>, b: map<Path, Bytes>, touched: set<Path>) {
    forall p :: p !in touched ==> SameAt(a, b, p)
  }

  class Disk {
    /** Contents of every regular file. */
    var files: map<Path, Bytes>
    /**
     * Every directory, with the files a walk of it yields, each once, in
     * enumeration order, symbolic-link loops already skipped.
     */
    const directories: map<Path, seq<Path>>
    /** Paths whose overwrite raises an `OSError`. */
    const unwritable: set<Path>

    constructor (files: map<Path, Bytes>, directories: map<Path, seq<Path>>, unwritable: set<Path>)
      ensures this.files == files && this.directories == directories && this.unwritable == unwritable
    {
      this.files := files;
      this.directories := directories;
      this.unwritable := unwritable;
    }

    /** What a walk of `path` yields when it is a directory; `None` when it is not one. */
    function Listing(path: Path): (walk: Option<seq<Path>>)
      ensures walk.Some? <==> path in directories
      ensures walk.Some? ==> walk.value == directories[path]
    {
      if path in directories then Some(directories[path]) else None
    }

    /**
     * Opens `path` for writing (truncating it) and writes `content`. On failure
     * nothing is promised about `path` itself, since the truncation may
     * already have happened; every other path keeps its bytes.
     */
    method Overwrite(path: Path, content: Bytes) returns (ok: bool)
      modifies this`files
      ensures ok <==> path !in unwritable
      ensures ok ==> files == old(files)[path := content]
      ensures SameOutside(old(files), files, {path})
    {
      if path in unwritable {
        ok := false;
      } else {
        files := files[path := content];
        ok := true;
      }
    }
  }
}
