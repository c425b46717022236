/** Entities of an ASiC-S (Associated Signature Container, simple form,
    ETSI EN 319 162-1) container, the fixed entry names and media types,
    and the foreign collaborators the container logic calls but does not
    implement. */
module AsicTypes {

  type Bytes = seq<bv8>

  datatype Option<+T> = None | Some(value: T)

  /** Every exception the container code throws, one constructor per cause. */
  datatype Error =
    | DuplicateSignature                      // a second signature entry point while loading
    | UnsupportedSubfolder(directory: string) // a data entry inside a directory
    | DuplicateDataFile                       // a second data object
    | MissingDataObject                       // loaded container without a data object
    | MissingSignature                        // loaded container without a signature
    | UnsupportedProfile                      // signing or saving with another profile
    | EntryMissing(entry: string)             // the ZIP reader has no entry of that name
    | FileNotFound(file: string)              // fileDigest of a name the store does not hold
    | SchemaValidationFailure                 // a manifest that does not parse or validate
    | SignaturesUnreadable                    // a signatures.xml that does not parse
    | DataFileRejected                        // the generic container's data-file checks
    | NotImplemented
    | ManifestChainTooDeep                    // the model's recursion bound ran out

  datatype Result<+T> = Ok(value: T) | Err(error: Error)

  datatype Outcome = Pass | Fail(error: Error)

  /** The signing profile; only the time-stamp-token profile is ASiC-S's own. */
  datatype Profile = TimeStampTokenProfile | OtherProfile(name: string)

  /** A digest value, kept symbolic: the algorithm URI and the bytes it was
      computed over ("" stands for the configured default algorithm). */
  datatype Digest = Digest(algorithm: string, over: Bytes)

  const DefaultDigestMethod: string := ""

  /** One row of the metadata store (ASiC_S::Data). */
  datatype MetaEntry = MetaEntry(name: string, mime: string, data: Bytes, root: bool)

  /** The one data object of the container. */
  datatype DataFile = DataFile(fileName: string, mediaType: string, content: Bytes)

  /** A DataObjectReference of an ASiCManifest: MimeType, URI, whether
      Rootfile="true" is present, and the DigestMethod/DigestValue pair. */
  datatype DataObjectRef = DataObjectRef(mime: string, uri: string, rootfile: bool, digest: Digest)

  /** The SigReference of an ASiCManifest. */
  datatype SigRef = SigRef(mime: string, uri: string)

  /** An ASiCManifest document: its SigReference and its DataObjectReferences in order. */
  datatype Manifest = Manifest(sigRef: SigRef, dataRefs: seq<DataObjectRef>)

  /** What a time-stamp token covers. */
  datatype Subject = OverDataFile | OverManifest(file: string, doc: Manifest)

  /** A signature of the chain: a time-stamp token (SignatureTST) or one
      signature element of a shared signatures.xml (SignatureXAdES_LTA). */
  datatype Signature =
    | Tst(subject: Subject, token: Bytes)
    | XadesLta(document: Bytes, index: nat, profile: Profile)

  function ProfileOf(s: Signature): Profile
  {
    match s
    case Tst(_, _) => TimeStampTokenProfile
    case XadesLta(_, _, p) => p
  }

  /** The state of a container: metadata store, signature chain, data files. */
  datatype Snapshot = Snapshot(metadata: seq<MetaEntry>, signatures: seq<Signature>, dataFiles: seq<DataFile>)

  const Empty: Snapshot := Snapshot([], [], [])

  /** A ZIP archive as its entries in archive order. */
  datatype ZipEntry = ZipEntry(name: string, content: Bytes)
  type Archive = seq<ZipEntry>

  /** The code the container calls and that is not part of this model:
      File::directory, File::fromUriPath, File::toUriPath,
      File::fileExtension, opening and schema-validating a manifest,
      parsing signatures.xml into the profiles of its signatures, and
      serialising a manifest document. */
  datatype Env = Env(
    directory: string -> string,
    fromUriPath: string -> string,
    toUriPath: string -> string,
    fileExtension: (string, seq<string>) -> bool,
    parseManifest: Bytes -> Option<Manifest>,
    parseSignatures: Bytes -> Option<seq<Profile>>,
    serialize: Manifest -> Bytes)

  const MimetypeName: string := "mimetype"
  const MetaInf: string := "META-INF/"
  const TimestampEntry: string := "META-INF/timestamp.tst"
  const SignaturesEntry: string := "META-INF/signatures.xml"
  const HeadManifest: string := "META-INF/ASiCArchiveManifest.xml"
  const TstMime: string := "application/vnd.etsi.timestamp-token"
  const XmlMime: string := "text/xml"
  const OctetStream: string := "application/octet-stream"

  /** The `starts_with` helper of the loader, comparing character by character. */
  function StartsWith(s: string, prefix: string): (r: bool)
    ensures r <==> |prefix| <= |s| && s[..|prefix|] == prefix
  {
    if prefix == [] then true
    else if s == [] || s[0] != prefix[0] then false
    else
      var r := StartsWith(s[1..], prefix[1..]);
      assert |prefix| <= |s| ==> s[..|prefix|] == [s[0]] + s[1..][..|prefix| - 1];
      r
  }

  /** The set of names in the metadata store. */
  function Names(ms: seq<MetaEntry>): set<string>
  {
    set k | 0 <= k < |ms| :: ms[k].name
  }

  /** The position of the first entry named `name` (the find_if of fileDigest). */
  function FirstNamed(ms: seq<MetaEntry>, name: string): (r: Option<nat>)
    ensures r.None? <==> name !in Names(ms)
    ensures r.Some? ==> r.value < |ms| && ms[r.value].name == name
                        && forall j :: 0 <= j < r.value ==> ms[j].name != name
  {
    if ms == [] then None
    else if ms[0].name == name then Some(0)
    else
      var rest := FirstNamed(ms[1..], name);
      assert Names(ms) == {ms[0].name} + Names(ms[1..]) by {
        forall n | n in Names(ms) ensures n in {ms[0].name} + Names(ms[1..]) {
          var k :| 0 <= k < |ms| && ms[k].name == n;
          if k > 0 { assert ms[1..][k - 1].name == n; }
        }
        forall n | n in Names(ms[1..]) ensures n in Names(ms) {
          var k :| 0 <= k < |ms[1..]| && ms[1..][k].name == n;
          assert ms[k + 1].name == n;
        }
      }
      if rest.None? then None else Some(rest.value + 1)
  }

  /** The position of the first archive entry named `name`. */
  function FindEntry(z: Archive, name: string): (r: Option<nat>)
    ensures r.None? <==> forall k :: 0 <= k < |z| ==> z[k].name != name
    ensures r.Some? ==> r.value < |z| && z[r.value].name == name
                        && forall j :: 0 <= j < r.value ==> z[j].name != name
  {
    if z == [] then None
    else if z[0].name == name then Some(0)
    else
      var rest := FindEntry(z[1..], name);
      assert forall k :: 1 <= k < |z| ==> z[k] == z[1..][k - 1];
      if rest.None? then None else Some(rest.value + 1)
  }

  /** z.extract(name): the content of the first archive entry of that name;
      the ZIP reader throws when there is none. */
  function Extract(z: Archive, name: string): Result<Bytes>
  {
    match FindEntry(z, name)
    case None => Err(EntryMissing(name))
    case Some(k) => Ok(z[k].content)
  }

  /** Data::digest: the digest of an entry's bytes under the given algorithm. */
  function EntryDigest(e: MetaEntry, algorithm: string): Digest
  {
    Digest(algorithm, e.data)
  }
}
