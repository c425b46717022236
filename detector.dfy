/** Format detection (ASiC_S::isContainerSimpleFormat): the file name's
    extension decides when it can, and otherwise the ZIP listing and the
    content of its mimetype entry do. */
module Detector {
  import opened AsicTypes

  const MimetypeAsicS: string := "application/vnd.etsi.asic-s+zip"
  const ExtendedExtensions: seq<string> := ["asice", "sce", "bdoc"]
  const SimpleExtensions: seq<string> := ["asics", "scs"]

  /** What the ZIP reader reports for the path: nothing when the file is
      not a readable ZIP archive, otherwise the entry names in archive
      order and the content of the mimetype entry if it can be read. */
  datatype ZipProbe = ZipUnreadable | ZipListing(names: seq<string>, mimetype: Option<string>)

  /** The archive's first entry is "mimetype" and holds the ASiC-S media type. */
  predicate DeclaresSimpleForm(probe: ZipProbe)
  {
    probe.ZipListing? && |probe.names| > 0 && probe.names[0] == MimetypeName
    && probe.mimetype == Some(MimetypeAsicS)
  }

  function IsContainerSimpleFormat(path: string, env: Env, probe: ZipProbe): (r: bool)
    ensures env.fileExtension(path, ExtendedExtensions) ==> !r
    ensures !env.fileExtension(path, ExtendedExtensions) && env.fileExtension(path, SimpleExtensions) ==> r
    ensures r <==> !env.fileExtension(path, ExtendedExtensions)
                   && (env.fileExtension(path, SimpleExtensions) || DeclaresSimpleForm(probe))
  {
    if env.fileExtension(path, ExtendedExtensions) then false
    else if env.fileExtension(path, SimpleExtensions) then true
    else
      match probe
      case ZipUnreadable => false
      case ZipListing(names, mimetype) =>
        |names| > 0 && names[0] == MimetypeName && mimetype == Some(MimetypeAsicS)
  }

  /** When the extension decides, the archive is never consulted. */
  lemma ExtensionDecides(path: string, env: Env, p: ZipProbe, q: ZipProbe)
    requires env.fileExtension(path, ExtendedExtensions) || env.fileExtension(path, SimpleExtensions)
    ensures IsContainerSimpleFormat(path, env, p) == IsContainerSimpleFormat(path, env, q)
  {
  }

  /** An unreadable file or one that is not an ASiC-S archive is detected
      as simple only by its extension. */
  lemma UnreadableNeedsExtension(path: string, env: Env, probe: ZipProbe)
    requires !DeclaresSimpleForm(probe)
    ensures IsContainerSimpleFormat(path, env, probe)
            <==> !env.fileExtension(path, ExtendedExtensions) && env.fileExtension(path, SimpleExtensions)
  {
  }
}
