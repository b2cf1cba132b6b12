/**
 * Where correct content comes from. The remote implementation turns a known
 * file's identity into a lookup against the Noc1 catalog and absorbs the
 * client's API errors into "no content".
 */
module RemediationSource {
  import opened Wrappers
  import opened FileSystem
  import opened Identifier

  /**
   * The arguments of one `get_wp_file_content` call: three positional
   * arguments for a core file, five when the file belongs to an extension.
   */
  datatype ContentRequest =
    | CoreFileRequest(fileType: string, path: string, siteVersion: string)
    | ExtensionFileRequest(fileType: string, path: string, siteVersion: string,
                           extensionName: string, extensionVersion: string)

  /** What the client call does: return a value, or raise an `ApiException`. */
  datatype ClientResponse = Returned(content: Option<Bytes>) | ApiException(message: string)

  /** The catalog key a known file is looked up under. */
  datatype LookupKey = LookupKey(fileType: FileType, path: Path, siteVersion: string, extension: Option<Extension>)

  function KeyOf(identity: FileIdentity): LookupKey
    requires identity.KnownFileIdentity?
  {
    LookupKey(identity.fileType, identity.localPath, identity.site.version, identity.extension)
  }

  /** Reads a file type back from its string value. */
  function ParseFileType(s: string): (t: Option<FileType>)
    ensures t.Some? ==> t.value.Value() == s
  {
    if s == "core" then Some(Core)
    else if s == "plugin" then Some(Plugin)
    else if s == "theme" then Some(Theme)
    else if s == "unknown" then Some(Unknown)
    else None
  }

  /** Reads the catalog key back from a request. */
  function KeyOfRequest(request: ContentRequest): Option<LookupKey> {
    match ParseFileType(request.fileType)
    case None => None
    case Some(t) =>
      var extension := if request.ExtensionFileRequest?
        then Some(Extension(request.extensionName, request.extensionVersion))
        else None;
      Some(LookupKey(t, request.path, request.siteVersion, extension))
  }

  /** Chooses the client call's arguments for `identity`. */
  function Noc1Request(identity: FileIdentity): (r: ContentRequest)
    requires identity.KnownFileIdentity?
    ensures r.fileType == identity.fileType.Value()
    ensures r.path == identity.localPath && r.siteVersion == identity.site.version
    ensures r.ExtensionFileRequest? <==> identity.extension.Some?
    ensures r.ExtensionFileRequest? ==>
              r.extensionName == identity.extension.value.name
              && r.extensionVersion == identity.extension.value.version
  {
    match identity.extension
    case None =>
      CoreFileRequest(identity.fileType.Value(), identity.localPath, identity.site.version)
    case Some(extension) =>
      ExtensionFileRequest(identity.fileType.Value(), identity.localPath, identity.site.version,
                           extension.name, extension.version)
  }

  lemma FileTypeValueRoundTrip(t: FileType)
    ensures ParseFileType(t.Value()) == Some(t)
  {
  }

  /** The request carries the whole catalog key: nothing of it is lost. */
  lemma RequestKeyRoundTrip(identity: FileIdentity)
    requires identity.KnownFileIdentity?
    ensures KeyOfRequest(Noc1Request(identity)) == Some(KeyOf(identity))
  {
  }

  /** Two known files are sent the same request exactly when they share a catalog key. */
  lemma RequestDeterminesKey(a: FileIdentity, b: FileIdentity)
    requires a.KnownFileIdentity? && b.KnownFileIdentity?
    ensures Noc1Request(a) == Noc1Request(b) <==> KeyOf(a) == KeyOf(b)
  {
  }

  /**
   * `Noc1RemediationSource.get_correct_content`, with the client call given
   * as `client`: the client's value is passed through, and an `ApiException`
   * becomes `None` instead of propagating.
   */
  function Noc1CorrectContent(client: ContentRequest -> ClientResponse, identity: FileIdentity): (c: Option<Bytes>)
    requires identity.KnownFileIdentity?
    ensures client(Noc1Request(identity)).ApiException? ==> c == None
    ensures client(Noc1Request(identity)).Returned? ==> c == client(Noc1Request(identity)).content
  {
    match client(Noc1Request(identity))
    case Returned(content) => content
    case ApiException(_) => None
  }
}
