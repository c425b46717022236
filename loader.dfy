/** What opening an ASiC-S container computes (the ASiC_S(path)
    constructor): each ZIP entry is sorted into a bucket in archive
    order, the metadata store, signature chain and data file are filled,
    and the structural rules of the simple form are enforced. The
    manifest chain is followed recursively; `fuel` bounds the depth of
    that recursion, which the container code does not bound. */
module Loader {
  import opened AsicTypes

  /** The directories File::directory may report for a top-level entry. */
  predicate DirectoryOk(d: string)
  {
    d == "" || d == "/" || d == "./"
  }

  /** An entry name that reaches neither a skip nor a signature branch:
      not "mimetype", not one of the three entry points, not under META-INF/. */
  predicate IsPlainName(name: string)
  {
    name != MimetypeName && name != TimestampEntry && name != SignaturesEntry
    && name != HeadManifest && !StartsWith(name, MetaInf)
  }

  /** An entry the loader takes as the data object. */
  predicate IsDataName(env: Env, name: string)
  {
    IsPlainName(name) && DirectoryOk(env.directory(name))
  }

  /** The names that start a signature chain. */
  predicate IsEntryPoint(name: string)
  {
    name == TimestampEntry || name == SignaturesEntry || name == HeadManifest
  }

  /** One XAdES signature per signature element of a signatures.xml document. */
  function XadesSignatures(doc: Bytes, profiles: seq<Profile>): (r: seq<Signature>)
    ensures |r| == |profiles|
    ensures forall k :: 0 <= k < |r| ==> r[k] == XadesLta(doc, k, profiles[k])
  {
    seq(|profiles|, k requires 0 <= k < |profiles| => XadesLta(doc, k, profiles[k]))
  }

  /** The `add` closure: load the manifest `file`, first every manifest it
      references with Rootfile="true", then its own time-stamp token, and
      record the manifest and the token in the metadata store. */
  function AddManifest(z: Archive, env: Env, st: Snapshot, file: string, mime: string, fuel: nat): Result<Snapshot>
    decreases fuel, 0
  {
    if fuel == 0 then Err(ManifestChainTooDeep)
    else
      var xml := Extract(z, file);
      if xml.Err? then Err(xml.error)
      else
        var parsed := env.parseManifest(xml.value);
        if parsed.None? then Err(SchemaValidationFailure)
        else
          var doc := parsed.value;
          var inner := AddRootfiles(z, env, st, doc.dataRefs, fuel - 1);
          if inner.Err? then inner
          else
            var uri := env.fromUriPath(doc.sigRef.uri);
            var tst := Extract(z, uri);
            if tst.Err? then Err(tst.error)
            else
              var s := inner.value;
              Ok(Snapshot(
                s.metadata + [MetaEntry(file, mime, xml.value, false), MetaEntry(uri, doc.sigRef.mime, tst.value, false)],
                s.signatures + [Tst(OverManifest(file, doc), tst.value)],
                s.dataFiles))
  }

  /** The loop over a manifest's DataObjectReferences. */
  function AddRootfiles(z: Archive, env: Env, st: Snapshot, refs: seq<DataObjectRef>, fuel: nat): Result<Snapshot>
    decreases fuel, |refs| + 1
  {
    if refs == [] then Ok(st)
    else if !refs[0].rootfile then AddRootfiles(z, env, st, refs[1..], fuel)
    else
      var r := AddManifest(z, env, st, env.fromUriPath(refs[0].uri), refs[0].mime, fuel);
      if r.Err? then r else AddRootfiles(z, env, r.value, refs[1..], fuel)
  }

  /** The body of the loader's loop for one entry name. */
  function LoadEntry(z: Archive, env: Env, fuel: nat, st: Snapshot, file: string): Result<Snapshot>
  {
    if file == MimetypeName then Ok(st)
    else if file == TimestampEntry then
      if st.signatures != [] then Err(DuplicateSignature)
      else
        var tst := Extract(z, file);
        if tst.Err? then Err(tst.error)
        else Ok(st.(signatures := st.signatures + [Tst(OverDataFile, tst.value)],
                    metadata := st.metadata + [MetaEntry(file, TstMime, tst.value, false)]))
    else if file == SignaturesEntry then
      if st.signatures != [] then Err(DuplicateSignature)
      else
        var data := Extract(z, file);
        if data.Err? then Err(data.error)
        else
          var parsed := env.parseSignatures(data.value);
          if parsed.None? then Err(SignaturesUnreadable)
          else Ok(st.(signatures := st.signatures + XadesSignatures(data.value, parsed.value)))
    else if file == HeadManifest then AddManifest(z, env, st, file, XmlMime, fuel)
    else if StartsWith(file, MetaInf) then Ok(st)
    else if !DirectoryOk(env.directory(file)) then Err(UnsupportedSubfolder(env.directory(file)))
    else if st.dataFiles != [] then Err(DuplicateDataFile)
    else
      var content := Extract(z, file);
      if content.Err? then Err(content.error)
      else Ok(st.(dataFiles := [DataFile(file, OctetStream, content.value)]))
  }

  /** The state after the loop has handled the first n entries. */
  function LoadPrefix(z: Archive, env: Env, fuel: nat, n: nat): Result<Snapshot>
    requires n <= |z|
  {
    if n == 0 then Ok(Empty)
    else
      var r := LoadPrefix(z, env, fuel, n - 1);
      if r.Err? then r else LoadEntry(z, env, fuel, r.value, z[n - 1].name)
  }

  /** The whole constructor: the loop, then the two final checks. */
  function Load(z: Archive, env: Env, fuel: nat): Result<Snapshot>
  {
    var r := LoadPrefix(z, env, fuel, |z|);
    if r.Err? then r
    else if r.value.dataFiles == [] then Err(MissingDataObject)
    else if r.value.signatures == [] then Err(MissingSignature)
    else r
  }

  // ---------------------------------------------------------------------
  // Properties of loading

  /** st2 extends st1: same data files, the chain and the store only grow,
      and every added store entry has root == false. */
  predicate Grows(st1: Snapshot, st2: Snapshot)
  {
    && st2.dataFiles == st1.dataFiles
    && st1.signatures <= st2.signatures
    && st1.metadata <= st2.metadata
    && forall k :: |st1.metadata| <= k < |st2.metadata| ==> !st2.metadata[k].root
  }

  lemma GrowsTransitive(a: Snapshot, b: Snapshot, c: Snapshot)
    requires Grows(a, b) && Grows(b, c)
    ensures Grows(a, c)
  {
    forall k | |a.metadata| <= k < |c.metadata| ensures !c.metadata[k].root {
      if k < |b.metadata| { assert c.metadata[k] == b.metadata[k]; }
    }
  }

  /** A manifest that loads adds at least one signature and keeps the data
      files; the entries it records are not marked root. */
  lemma {:induction false} AddManifestGrows(z: Archive, env: Env, st: Snapshot, file: string, mime: string, fuel: nat)
    requires AddManifest(z, env, st, file, mime, fuel).Ok?
    ensures Grows(st, AddManifest(z, env, st, file, mime, fuel).value)
    ensures |AddManifest(z, env, st, file, mime, fuel).value.signatures| > |st.signatures|
    decreases fuel, 0
  {
    var xml := Extract(z, file);
    var doc := env.parseManifest(xml.value).value;
    AddRootfilesGrows(z, env, st, doc.dataRefs, fuel - 1);
    var s := AddRootfiles(z, env, st, doc.dataRefs, fuel - 1).value;
    var r := AddManifest(z, env, st, file, mime, fuel).value;
    assert Grows(s, r);
    GrowsTransitive(st, s, r);
  }

  lemma {:induction false} AddRootfilesGrows(z: Archive, env: Env, st: Snapshot, refs: seq<DataObjectRef>, fuel: nat)
    requires AddRootfiles(z, env, st, refs, fuel).Ok?
    ensures Grows(st, AddRootfiles(z, env, st, refs, fuel).value)
    decreases fuel, |refs| + 1
  {
    if refs == [] {
    } else if !refs[0].rootfile {
      AddRootfilesGrows(z, env, st, refs[1..], fuel);
    } else {
      var file := env.fromUriPath(refs[0].uri);
      AddManifestGrows(z, env, st, file, refs[0].mime, fuel);
      var s := AddManifest(z, env, st, file, refs[0].mime, fuel).value;
      AddRootfilesGrows(z, env, s, refs[1..], fuel);
      GrowsTransitive(st, s, AddRootfiles(z, env, st, refs, fuel).value);
    }
  }

  /** The order of the `add` closure: first every Rootfile manifest,
      then this manifest's own token as the last signature, and its XML
      followed by its token as the last two store entries. */
  lemma AddManifestOrder(z: Archive, env: Env, st: Snapshot, file: string, mime: string, fuel: nat)
    requires AddManifest(z, env, st, file, mime, fuel).Ok?
    ensures fuel > 0 && Extract(z, file).Ok? && env.parseManifest(Extract(z, file).value).Some?
    ensures var xml := Extract(z, file).value;
      var doc := env.parseManifest(xml).value;
      var uri := env.fromUriPath(doc.sigRef.uri);
      var r := AddManifest(z, env, st, file, mime, fuel).value;
      && Extract(z, uri).Ok?
      && |r.signatures| >= |st.signatures| + 1 && |r.metadata| >= |st.metadata| + 2
      && r.signatures[|r.signatures| - 1] == Tst(OverManifest(file, doc), Extract(z, uri).value)
      && r.metadata[|r.metadata| - 2] == MetaEntry(file, mime, xml, false)
      && r.metadata[|r.metadata| - 1] == MetaEntry(uri, doc.sigRef.mime, Extract(z, uri).value, false)
      && AddRootfiles(z, env, st, doc.dataRefs, fuel - 1)
         == Ok(Snapshot(r.metadata[..|r.metadata| - 2], r.signatures[..|r.signatures| - 1], r.dataFiles))
  {
    var xml := Extract(z, file).value;
    var doc := env.parseManifest(xml).value;
    AddRootfilesGrows(z, env, st, doc.dataRefs, fuel - 1);
    var s := AddRootfiles(z, env, st, doc.dataRefs, fuel - 1).value;
    var r := AddManifest(z, env, st, file, mime, fuel).value;
    assert r.metadata[..|r.metadata| - 2] == s.metadata;
    assert r.signatures[..|r.signatures| - 1] == s.signatures;
  }

  /** One loop step keeps what was there, adds at most the first data file,
      and records only non-root entries. */
  lemma LoadEntryGrows(z: Archive, env: Env, fuel: nat, st: Snapshot, file: string)
    requires LoadEntry(z, env, fuel, st, file).Ok?
    ensures var r := LoadEntry(z, env, fuel, st, file).value;
      && st.signatures <= r.signatures && st.metadata <= r.metadata && st.dataFiles <= r.dataFiles
      && (forall k :: |st.metadata| <= k < |r.metadata| ==> !r.metadata[k].root)
      && (r.dataFiles != st.dataFiles ==> st.dataFiles == [] && |r.dataFiles| == 1 && IsDataName(env, file))
      && (r.signatures != st.signatures ==> IsEntryPoint(file))
  {
    if file == HeadManifest {
      AddManifestGrows(z, env, st, file, XmlMime, fuel);
    }
  }

  /** Once an error is raised, the loop's outcome is that error. */
  lemma {:induction false} ErrorPersists(z: Archive, env: Env, fuel: nat, n: nat, m: nat)
    requires n <= m <= |z|
    requires LoadPrefix(z, env, fuel, n).Err?
    ensures LoadPrefix(z, env, fuel, m) == LoadPrefix(z, env, fuel, n)
    decreases m - n
  {
    if m > n { ErrorPersists(z, env, fuel, n, m - 1); }
  }

  /** The loop's state only grows from one prefix to a longer one. */
  lemma {:induction false} PrefixGrows(z: Archive, env: Env, fuel: nat, n: nat, m: nat)
    requires n <= m <= |z|
    requires LoadPrefix(z, env, fuel, m).Ok?
    ensures LoadPrefix(z, env, fuel, n).Ok?
    ensures var a, b := LoadPrefix(z, env, fuel, n).value, LoadPrefix(z, env, fuel, m).value;
      a.signatures <= b.signatures && a.metadata <= b.metadata && a.dataFiles <= b.dataFiles
    decreases m - n
  {
    if m > n {
      PrefixGrows(z, env, fuel, n, m - 1);
      LoadEntryGrows(z, env, fuel, LoadPrefix(z, env, fuel, m - 1).value, z[m - 1].name);
    }
  }

  /** Every state the loop reaches has at most one data file, none of its
      store entries is root, a data file only when a data entry was met,
      and a signature only when an entry point was met. */
  lemma {:induction false} PrefixShape(z: Archive, env: Env, fuel: nat, n: nat)
    requires n <= |z|
    requires LoadPrefix(z, env, fuel, n).Ok?
    ensures var st := LoadPrefix(z, env, fuel, n).value;
      && |st.dataFiles| <= 1
      && (forall k :: 0 <= k < |st.metadata| ==> !st.metadata[k].root)
      && (st.dataFiles != [] ==> exists i :: 0 <= i < n && IsDataName(env, z[i].name))
      && (st.signatures != [] ==> exists i :: 0 <= i < n && IsEntryPoint(z[i].name))
    decreases n
  {
    if n > 0 {
      var prev := LoadPrefix(z, env, fuel, n - 1);
      PrefixShape(z, env, fuel, n - 1);
      LoadEntryGrows(z, env, fuel, prev.value, z[n - 1].name);
      var st := LoadPrefix(z, env, fuel, n).value;
      forall k | 0 <= k < |st.metadata| ensures !st.metadata[k].root {
        if k < |prev.value.metadata| { assert st.metadata[k] == prev.value.metadata[k]; }
      }
    }
  }

  /** A container that loads has exactly one data file (taken from a data
      entry, as application/octet-stream), a non-empty signature chain
      started by an entry point, and no store entry marked root. */
  lemma LoadedShape(z: Archive, env: Env, fuel: nat)
    requires Load(z, env, fuel).Ok?
    ensures var st := Load(z, env, fuel).value;
      && |st.dataFiles| == 1 && st.signatures != []
      && st.dataFiles[0].mediaType == OctetStream
      && IsDataName(env, st.dataFiles[0].fileName)
      && (exists i :: 0 <= i < |z| && z[i].name == st.dataFiles[0].fileName)
      && (exists i :: 0 <= i < |z| && IsEntryPoint(z[i].name))
      && forall k :: 0 <= k < |st.metadata| ==> !st.metadata[k].root
  {
    PrefixShape(z, env, fuel, |z|);
    DataFileOrigin(z, env, fuel, |z|);
  }

  /** Where the data file of a loop state comes from. */
  lemma {:induction false} DataFileOrigin(z: Archive, env: Env, fuel: nat, n: nat)
    requires n <= |z|
    requires LoadPrefix(z, env, fuel, n).Ok?
    ensures var st := LoadPrefix(z, env, fuel, n).value;
      forall f :: f in st.dataFiles ==>
        f.mediaType == OctetStream && IsDataName(env, f.fileName)
        && exists i :: 0 <= i < n && z[i].name == f.fileName
    decreases n
  {
    if n > 0 {
      var prev := LoadPrefix(z, env, fuel, n - 1);
      DataFileOrigin(z, env, fuel, n - 1);
      LoadEntryGrows(z, env, fuel, prev.value, z[n - 1].name);
    }
  }

  /** After a signature entry point has started the chain, a later
      timestamp.tst or signatures.xml makes loading fail. */
  lemma SecondEntryPointRejected(z: Archive, env: Env, fuel: nat, i: nat, j: nat)
    requires i < j < |z|
    requires LoadPrefix(z, env, fuel, i + 1).Ok? && LoadPrefix(z, env, fuel, i + 1).value.signatures != []
    requires z[j].name == TimestampEntry || z[j].name == SignaturesEntry
    ensures !Load(z, env, fuel).Ok?
  {
    if LoadPrefix(z, env, fuel, j).Ok? {
      PrefixGrows(z, env, fuel, i + 1, j);
      assert LoadPrefix(z, env, fuel, j + 1) == Err(DuplicateSignature);
      ErrorPersists(z, env, fuel, j + 1, |z|);
    } else {
      ErrorPersists(z, env, fuel, j, |z|);
    }
  }

  /** timestamp.tst, once loaded, starts the chain. */
  lemma TimestampStartsChain(z: Archive, env: Env, fuel: nat, i: nat)
    requires i < |z| && z[i].name == TimestampEntry
    requires LoadPrefix(z, env, fuel, i + 1).Ok?
    ensures LoadPrefix(z, env, fuel, i + 1).value.signatures != []
  {
  }

  /** The head manifest, once loaded, starts the chain. */
  lemma ManifestStartsChain(z: Archive, env: Env, fuel: nat, i: nat)
    requires i < |z| && z[i].name == HeadManifest
    requires LoadPrefix(z, env, fuel, i + 1).Ok?
    ensures LoadPrefix(z, env, fuel, i + 1).value.signatures != []
  {
    AddManifestGrows(z, env, LoadPrefix(z, env, fuel, i).value, HeadManifest, XmlMime, fuel);
  }

  /** The head manifest branch has no duplicate-signature check: after
      timestamp.tst, the head manifest is loaded like any other, and the
      chain then holds both. */
  lemma ManifestAfterTimestampAccepted(z: Archive, env: Env, fuel: nat, st: Snapshot)
    requires st.signatures != []
    ensures LoadEntry(z, env, fuel, st, HeadManifest) == AddManifest(z, env, st, HeadManifest, XmlMime, fuel)
  {
  }

  /** "mimetype" and the META-INF/ entries that start no chain leave the
      state as it is. */
  lemma SkippedEntries(z: Archive, env: Env, fuel: nat, st: Snapshot, file: string)
    requires file == MimetypeName || (StartsWith(file, MetaInf) && !IsEntryPoint(file))
    ensures LoadEntry(z, env, fuel, st, file) == Ok(st)
  {
  }

  /** A second data entry makes loading fail. */
  lemma SecondDataFileRejected(z: Archive, env: Env, fuel: nat, i: nat, j: nat)
    requires i < j < |z|
    requires IsDataName(env, z[i].name) && IsDataName(env, z[j].name)
    ensures !Load(z, env, fuel).Ok?
  {
    if LoadPrefix(z, env, fuel, j).Ok? {
      PrefixGrows(z, env, fuel, i + 1, j);
      assert LoadPrefix(z, env, fuel, i + 1).value.dataFiles != [];
      assert LoadPrefix(z, env, fuel, j + 1) == Err(DuplicateDataFile);
      ErrorPersists(z, env, fuel, j + 1, |z|);
    } else {
      ErrorPersists(z, env, fuel, j, |z|);
    }
  }

  /** An entry outside META-INF/ that sits in a subfolder makes loading fail. */
  lemma SubfolderRejected(z: Archive, env: Env, fuel: nat, j: nat)
    requires j < |z|
    requires IsPlainName(z[j].name) && !DirectoryOk(env.directory(z[j].name))
    ensures !Load(z, env, fuel).Ok?
  {
    if LoadPrefix(z, env, fuel, j).Ok? {
      assert LoadPrefix(z, env, fuel, j + 1) == Err(UnsupportedSubfolder(env.directory(z[j].name)));
      ErrorPersists(z, env, fuel, j + 1, |z|);
    } else {
      ErrorPersists(z, env, fuel, j, |z|);
    }
  }

  /** Without a data entry, a loop that completes ends in MissingDataObject. */
  lemma NoDataEntryRejected(z: Archive, env: Env, fuel: nat)
    requires forall i :: 0 <= i < |z| ==> !IsDataName(env, z[i].name)
    requires LoadPrefix(z, env, fuel, |z|).Ok?
    ensures Load(z, env, fuel) == Err(MissingDataObject)
  {
    PrefixShape(z, env, fuel, |z|);
  }

  /** Without an entry point, a loop that completes with a data file ends
      in MissingSignature. */
  lemma NoEntryPointRejected(z: Archive, env: Env, fuel: nat)
    requires forall i :: 0 <= i < |z| ==> !IsEntryPoint(z[i].name)
    requires LoadPrefix(z, env, fuel, |z|).Ok? && LoadPrefix(z, env, fuel, |z|).value.dataFiles != []
    ensures Load(z, env, fuel) == Err(MissingSignature)
  {
    PrefixShape(z, env, fuel, |z|);
  }

  /** Fuel only bounds the recursion: a manifest that loads (or fails for a
      reason other than depth) does the same with more fuel. */
  lemma {:induction false} AddManifestFuel(z: Archive, env: Env, st: Snapshot, file: string, mime: string, fuel: nat, more: nat)
    requires fuel <= more
    requires AddManifest(z, env, st, file, mime, fuel) != Err(ManifestChainTooDeep)
    ensures AddManifest(z, env, st, file, mime, more) == AddManifest(z, env, st, file, mime, fuel)
    decreases fuel, 0
  {
    var xml := Extract(z, file);
    if fuel > 0 && xml.Ok? && env.parseManifest(xml.value).Some? {
      var doc := env.parseManifest(xml.value).value;
      AddRootfilesFuel(z, env, st, doc.dataRefs, fuel - 1, more - 1);
    }
  }

  lemma {:induction false} AddRootfilesFuel(z: Archive, env: Env, st: Snapshot, refs: seq<DataObjectRef>, fuel: nat, more: nat)
    requires fuel <= more
    requires AddRootfiles(z, env, st, refs, fuel) != Err(ManifestChainTooDeep)
    ensures AddRootfiles(z, env, st, refs, more) == AddRootfiles(z, env, st, refs, fuel)
    decreases fuel, |refs| + 1
  {
    if refs == [] {
    } else if !refs[0].rootfile {
      AddRootfilesFuel(z, env, st, refs[1..], fuel, more);
    } else {
      var file := env.fromUriPath(refs[0].uri);
      var r := AddManifest(z, env, st, file, refs[0].mime, fuel);
      AddManifestFuel(z, env, st, file, refs[0].mime, fuel, more);
      if r.Ok? {
        AddRootfilesFuel(z, env, r.value, refs[1..], fuel, more);
      }
    }
  }
}
