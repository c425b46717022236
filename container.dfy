/** The ASiC-S container object (class ASiC_S): its metadata store,
    signature chain and data file as mutable fields, and the operations
    that read and update them step by step. Each state-changing method is
    proved to compute what the functional definitions of Loader and
    Chaining describe. */
module Container {
  import opened AsicTypes
  import opened Counter
  import Loader
  import Chaining
  import Detector
  import Persist

  function Lift(r: Outcome, st: Snapshot): Result<Snapshot>
  {
    if r.Pass? then Ok(st) else Err(r.error)
  }

  class AsicS {
    var metadata: seq<MetaEntry>
    var signatures: seq<Signature>
    var dataFiles: seq<DataFile>
    var zpath: string

    function State(): Snapshot
      reads this
    {
      Snapshot(metadata, signatures, dataFiles)
    }

    /** ASiC_S(): a new, empty container. */
    constructor ()
      ensures State() == Empty && zpath == ""
    {
      metadata, signatures, dataFiles, zpath := [], [], [], "";
    }

    /** createInternal: a new container for a path with an ASiC-S
        extension, and none for any other path. */
    static method CreateInternal(path: string, env: Env) returns (c: AsicS?)
      ensures (c != null) == env.fileExtension(path, ["asics", "scs"])
      ensures c != null ==> fresh(c) && c.State() == Empty && c.zpath == path
    {
      if !env.fileExtension(path, ["asics", "scs"]) {
        return null;
      }
      c := new AsicS();
      c.zpath := path;
    }

    /** openInternal: open the path when it is detected as an ASiC-S
        container; `probe` is what the ZIP reader reports for the path
        and `z` its entries. */
    static method OpenInternal(path: string, env: Env, probe: Detector.ZipProbe, z: Archive, fuel: nat)
      returns (c: AsicS?, r: Outcome)
      ensures (c == null) == !Detector.IsContainerSimpleFormat(path, env, probe)
      ensures c == null ==> r == Pass
      ensures c != null ==> fresh(c) && Loader.Load(z, env, fuel) == Lift(r, c.State())
    {
      if !Detector.IsContainerSimpleFormat(path, env, probe) {
        return null, Pass;
      }
      c, r := Open(z, env, fuel);
    }

    /** ASiC_S(path): open a container from the entries of its ZIP archive. */
    static method Open(z: Archive, env: Env, fuel: nat) returns (c: AsicS, r: Outcome)
      ensures fresh(c)
      ensures Loader.Load(z, env, fuel) == Lift(r, c.State())
    {
      c := new AsicS();
      r := c.LoadArchive(z, env, fuel);
    }

    /** The loader's loop over the archive's entries and its final checks. */
    method LoadArchive(z: Archive, env: Env, fuel: nat) returns (r: Outcome)
      requires State() == Empty
      modifies this
      ensures Loader.Load(z, env, fuel) == Lift(r, State())
      ensures zpath == old(zpath)
    {
      var i := 0;
      while i < |z|
        invariant 0 <= i <= |z|
        invariant Loader.LoadPrefix(z, env, fuel, i) == Ok(State())
        invariant zpath == old(zpath)
      {
        r := LoadEntry(z, env, fuel, z[i].name);
        if r.Fail? {
          Loader.ErrorPersists(z, env, fuel, i + 1, |z|);
          return;
        }
        i := i + 1;
      }
      if dataFiles == [] {
        return Fail(MissingDataObject);
      }
      if signatures == [] {
        return Fail(MissingSignature);
      }
      return Pass;
    }

    /** The loader's loop body for one entry name. */
    method LoadEntry(z: Archive, env: Env, fuel: nat, file: string) returns (r: Outcome)
      modifies this
      ensures Loader.LoadEntry(z, env, fuel, old(State()), file) == Lift(r, State())
      ensures zpath == old(zpath)
    {
      if file == MimetypeName {
        return Pass;
      } else if file == TimestampEntry {
        if signatures != [] {
          return Fail(DuplicateSignature);
        }
        var tst := Extract(z, file);
        if tst.Err? {
          return Fail(tst.error);
        }
        signatures := signatures + [Tst(OverDataFile, tst.value)];
        metadata := metadata + [MetaEntry(file, TstMime, tst.value, false)];
        return Pass;
      } else if file == SignaturesEntry {
        if signatures != [] {
          return Fail(DuplicateSignature);
        }
        var data := Extract(z, file);
        if data.Err? {
          return Fail(data.error);
        }
        var parsed := env.parseSignatures(data.value);
        if parsed.None? {
          return Fail(SignaturesUnreadable);
        }
        var found := parsed.value;
        var k := 0;
        while k < |found|
          invariant 0 <= k <= |found|
          invariant signatures == old(signatures) + Loader.XadesSignatures(data.value, found[..k])
          invariant metadata == old(metadata) && dataFiles == old(dataFiles) && zpath == old(zpath)
        {
          assert Loader.XadesSignatures(data.value, found[..k + 1])
              == Loader.XadesSignatures(data.value, found[..k]) + [XadesLta(data.value, k, found[k])];
          signatures := signatures + [XadesLta(data.value, k, found[k])];
          k := k + 1;
        }
        assert found[..k] == found;
        return Pass;
      } else if file == HeadManifest {
        r := AddManifest(z, env, file, XmlMime, fuel);
      } else if StartsWith(file, MetaInf) {
        return Pass;
      } else if !Loader.DirectoryOk(env.directory(file)) {
        return Fail(UnsupportedSubfolder(env.directory(file)));
      } else if dataFiles != [] {
        return Fail(DuplicateDataFile);
      } else {
        var content := Extract(z, file);
        if content.Err? {
          return Fail(content.error);
        }
        dataFiles := [DataFile(file, OctetStream, content.value)];
        return Pass;
      }
    }

    /** The `add` closure: load the manifest `file` and, before its own
        token, every manifest it references with Rootfile="true". */
    method AddManifest(z: Archive, env: Env, file: string, mime: string, fuel: nat) returns (r: Outcome)
      modifies this
      ensures Loader.AddManifest(z, env, old(State()), file, mime, fuel) == Lift(r, State())
      ensures zpath == old(zpath)
      decreases fuel
    {
      if fuel == 0 {
        return Fail(ManifestChainTooDeep);
      }
      var xml := Extract(z, file);
      if xml.Err? {
        return Fail(xml.error);
      }
      var parsed := env.parseManifest(xml.value);
      if parsed.None? {
        return Fail(SchemaValidationFailure);
      }
      var doc := parsed.value;
      var refs := doc.dataRefs;
      ghost var st0 := State();
      var i := 0;
      while i < |refs|
        invariant 0 <= i <= |refs|
        invariant Loader.AddRootfiles(z, env, st0, refs, fuel - 1)
               == Loader.AddRootfiles(z, env, State(), refs[i..], fuel - 1)
        invariant zpath == old(zpath)
      {
        assert refs[i..][1..] == refs[i + 1..];
        if refs[i].rootfile {
          var sub := AddManifest(z, env, env.fromUriPath(refs[i].uri), refs[i].mime, fuel - 1);
          if sub.Fail? {
            return sub;
          }
        }
        i := i + 1;
      }
      assert refs[i..] == [];
      assert Loader.AddRootfiles(z, env, st0, refs, fuel - 1) == Ok(State());
      ghost var m1 := metadata;
      var uri := env.fromUriPath(doc.sigRef.uri);
      var tst := Extract(z, uri);
      if tst.Err? {
        return Fail(tst.error);
      }
      signatures := signatures + [Tst(OverManifest(file, doc), tst.value)];
      metadata := metadata + [MetaEntry(file, mime, xml.value, false)];
      metadata := metadata + [MetaEntry(uri, doc.sigRef.mime, tst.value, false)];
      assert metadata == m1 + [MetaEntry(file, mime, xml.value, false), MetaEntry(uri, doc.sigRef.mime, tst.value, false)];
      return Pass;
    }

    /** sign(signer): add a time-stamp token signature. `token` stands for
        what creating the token yields: the bytes the time-stamping
        authority returns, or the error its call throws. */
    method Sign(profile: Profile, token: Result<Bytes>, env: Env) returns (r: Result<Signature>)
      requires profile == TimeStampTokenProfile && signatures != [] ==> dataFiles != []
      modifies this
      ensures (r, State()) == Chaining.Sign(old(State()), profile, token, env)
      ensures zpath == old(zpath)
    {
      if profile != TimeStampTokenProfile {
        return Err(UnsupportedProfile);
      }
      if signatures == [] {
        if token.Err? {
          return Err(token.error);
        }
        var sig := Tst(OverDataFile, token.value);
        metadata := metadata + [MetaEntry(TimestampEntry, TstMime, token.value, false)];
        signatures := signatures + [sig];
        return Ok(sig);
      }

      var tstName := NextTokenName();
      var sigRef := SigRef(TstMime, tstName);
      var refs := FreezeHeads(env);
      ghost var renamed := metadata;
      var doc := Manifest(sigRef, refs);
      var data := env.serialize(doc);
      metadata := metadata + [MetaEntry(HeadManifest, XmlMime, data, false)];
      if token.Err? {
        return Err(token.error);
      }
      var sig := Tst(OverManifest(HeadManifest, doc), token.value);
      metadata := metadata + [MetaEntry(tstName, TstMime, token.value, false)];
      assert metadata == renamed + [MetaEntry(HeadManifest, XmlMime, data, false), MetaEntry(tstName, TstMime, token.value, false)];
      signatures := signatures + [sig];
      return Ok(sig);
    }

    /** The first probe of sign: timestamp001.tst, timestamp002.tst, ...
        until a name the store does not hold. */
    method NextTokenName() returns (name: string)
      ensures name !in Names(metadata)
      ensures name == Chaining.TokenName(metadata)
    {
      name := Numbered(Timestamps, 1);
      var i: nat := 1;
      while name in Names(metadata)
        invariant 1 <= i && name == Numbered(Timestamps, i)
        invariant forall j :: 1 <= j < i ==> Numbered(Timestamps, j) in Names(metadata)
        invariant i <= |Names(metadata)| + 1
        decreases |Names(metadata)| + 1 - i
      {
        TakenBound(Names(metadata), Timestamps, i);
        i := i + 1;
        name := Numbered(Timestamps, i);
      }
      Chaining.FreeIndexIsLeast(Names(metadata), Timestamps, i);
    }

    /** The second probe of sign, whose counter starts at 0 and is
        formatted as max(counter, 1), so ASiCArchiveManifest001.xml is
        tried twice. */
    method NextManifestName() returns (name: string)
      ensures name !in Names(metadata)
      ensures name == Chaining.FrozenName(metadata)
    {
      name := Numbered(Manifests, 1);
      var j: nat := 0;
      while name in Names(metadata)
        invariant name == Numbered(Manifests, if j == 0 then 1 else j)
        invariant forall n :: 1 <= n < j ==> Numbered(Manifests, n) in Names(metadata)
        invariant j <= |Names(metadata)| + 1
        decreases |Names(metadata)| + 1 - j
      {
        if j > 0 {
          TakenBound(Names(metadata), Manifests, j);
        }
        j := j + 1;
        name := Numbered(Manifests, j);
      }
      Chaining.FreeIndexIsLeast(Names(metadata), Manifests, if j == 0 then 1 else j);
    }

    /** The loop of sign over the store: freeze every head manifest under
        a numbered name, and collect the new manifest's references (the
        data file first, then every entry as renamed). */
    method FreezeHeads(env: Env) returns (refs: seq<DataObjectRef>)
      requires dataFiles != []
      modifies this
      ensures signatures == old(signatures) && dataFiles == old(dataFiles) && zpath == old(zpath)
      ensures metadata == Chaining.RenameHeads(old(metadata), 0)
      ensures refs == [Chaining.DataFileRef(dataFiles[0], env)] + Chaining.EntryRefs(metadata, env)
    {
      refs := [Chaining.DataFileRef(dataFiles[0], env)];
      ghost var m0 := metadata;
      var k := 0;
      while k < |metadata|
        invariant 0 <= k <= |metadata| == |m0|
        invariant Chaining.RenameHeads(metadata, k) == Chaining.RenameHeads(m0, 0)
        invariant signatures == old(signatures) && dataFiles == old(dataFiles) && zpath == old(zpath)
        invariant refs == [Chaining.DataFileRef(dataFiles[0], env)] + Chaining.EntryRefs(metadata[..k], env)
      {
        if metadata[k].name == HeadManifest {
          var frozen := NextManifestName();
          metadata := metadata[k := metadata[k].(name := frozen, root := true)];
        }
        assert metadata[..k + 1] == metadata[..k] + [metadata[k]];
        refs := refs + [Chaining.EntryRef(metadata[k], env)];
        k := k + 1;
      }
      assert metadata[..k] == metadata;
    }

    /** save(s): the files handed to the ZIP writer, in order. */
    method Save() returns (r: Result<seq<ZipEntry>>)
      ensures signatures == [] ==> r == Ok([])
      ensures signatures != [] && ProfileOf(signatures[0]) != TimeStampTokenProfile ==> r == Err(UnsupportedProfile)
      ensures signatures != [] && ProfileOf(signatures[0]) == TimeStampTokenProfile ==>
        r.Ok? && |r.value| == |metadata|
        && forall k :: 0 <= k < |metadata| ==> r.value[k] == ZipEntry(metadata[k].name, metadata[k].data)
      ensures r == Persist.Saved(State())
    {
      var list := signatures;
      if list == [] {
        return Ok([]);
      }
      if ProfileOf(list[0]) != TimeStampTokenProfile {
        return Err(UnsupportedProfile);
      }
      var out: seq<ZipEntry> := [];
      for k := 0 to |metadata|
        invariant |out| == k
        invariant forall j :: 0 <= j < k ==> out[j] == ZipEntry(metadata[j].name, metadata[j].data)
      {
        out := out + [ZipEntry(metadata[k].name, metadata[k].data)];
      }
      assert out == Persist.Saved(State()).value;
      return Ok(out);
    }

    /** fileDigest(file, method): the digest of the first store entry with
        that name, or FileNotFound. */
    function FileDigest(file: string, algorithm: string): (r: Result<Digest>)
      reads this
      ensures r.Err? <==> file !in Names(metadata)
      ensures r.Err? ==> r.error == FileNotFound(file)
      ensures r.Ok? ==> exists k :: 0 <= k < |metadata| && metadata[k].name == file
                                    && (forall j :: 0 <= j < k ==> metadata[j].name != file)
                                    && r.value == Digest(algorithm, metadata[k].data)
    {
      match FirstNamed(metadata, file)
      case None => Err(FileNotFound(file))
      case Some(k) => Ok(EntryDigest(metadata[k], algorithm))
    }

    /** addDataFileChecks: the generic container's checks (whose verdict is
        `baseChecks`), then the refusal of a second data file. */
    function AddDataFileChecks(fileName: string, mediaType: string, baseChecks: Outcome): (r: Outcome)
      reads this
      ensures baseChecks.Fail? ==> r == baseChecks
      ensures baseChecks.Pass? ==> (r.Pass? <==> dataFiles == [])
      ensures r.Fail? && baseChecks.Pass? ==> r.error == DuplicateDataFile
    {
      if baseChecks.Fail? then baseChecks
      else if dataFiles != [] then Fail(DuplicateDataFile)
      else Pass
    }

    /** addAdESSignature: not supported by the simple form. */
    method AddAdESSignature(signature: Bytes) returns (r: Outcome)
      ensures r == Fail(NotImplemented)
    {
      return Fail(NotImplemented);
    }

    /** prepareSignature: not supported by the simple form. */
    method PrepareSignature(signerProfile: Profile) returns (r: Result<Signature>)
      ensures r == Err(NotImplemented)
    {
      return Err(NotImplemented);
    }
  }
}
