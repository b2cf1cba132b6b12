/**
 * What the classifier says a path is. Only the fields the remediator and its
 * content source read are kept.
 */
module Identifier {
  import opened Wrappers
  import opened FileSystem

  /** The role of a file within a WordPress installation. */
  datatype FileType = Core | Plugin | Theme | Unknown {

    /** The enum's string value, as sent to the content API. */
    function Value(): string {
      match this
      case Core => "core"
      case Plugin => "plugin"
      case Theme => "theme"
      case Unknown => "unknown"
    }
  }

  /** The installation a file belongs to; only its version is used here. */
  datatype Site = Site(version: string)

  /** A plugin or theme a file belongs to. */
  datatype Extension = Extension(name: string, version: string)

  datatype FileIdentity =
    /** A file the classifier could not place in the catalog. */
    | FileIdentity(fileType: FileType, localPath: Path)
    /** A file of the core (no extension) or of a plugin or theme. */
    | KnownFileIdentity(fileType: FileType, localPath: Path, site: Site, extension: Option<Extension>)
    /** A directory taken as a whole. */
    | GroupIdentity(fileType: FileType, localPath: Path)
}
