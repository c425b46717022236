# ASiC-S container logic of libdigidocpp, modelled in Dafny

libdigidocpp's `ASiC_S` class implements the simple form of the ETSI EN
319 162-1 Associated Signature Container: a ZIP archive holding one data
file and a signature chain. The chain takes one of three forms:
- a single time-stamp token (`META-INF/timestamp.tst`);
- a `META-INF/signatures.xml` document;
- a chain of archive manifests (`META-INF/ASiCArchiveManifest*.xml`), each with its own time-stamp token.

This project models four parts of that class:
- the loader that sorts the archive's entries into the metadata store, the signature chain and the data file;
- signing, which starts the chain or extends it by one archive-timestamp round;
- saving and digest lookup;
- format detection.

Layout, one module per file:

| file | module | content |
|---|---|---|
| `types.dfy` | `AsicTypes` | entities (store entry, data file, manifest, signature, container state), error causes, fixed names and media types, the foreign collaborators as the `Env` record |
| `counter.dfy` | `Counter` | the `%03zu` counter, the numbered entry names, and the first free number the probes of signing settle on |
| `loader.dfy` | `Loader` | what opening computes, as functions over the archive, and the structural rules of loading as lemmas |
| `chaining.dfy` | `Chaining` | what signing computes, as a function of the state, and the shape of a chaining round and of the new manifest as lemmas |
| `detector.dfy` | `Detector` | `isContainerSimpleFormat` |
| `persist.dfy` | `Persist` | what `save` writes, and the round trip of a signed container through saving and reopening |
| `container.dfy` | `Container` | the class `AsicS`, whose fields the loader and `sign` update step by step, proved against the functions of `Loader` and `Chaining` |

The container class keeps `metadata`, `signatures`, `dataFiles` and
`zpath` as fields. Its loader loop, its recursive manifest loader and
`sign` are imperative methods with loop invariants. Their postconditions
equate the new state with `Loader.Load`, `Loader.AddManifest` and
`Chaining.Sign` of the old one, and the lemmas about those functions
carry the container's guarantees.

Foreign code enters as parameters:
- the ZIP archive is a sequence of named byte strings, and so is what `save` writes;
- `File::directory`, `File::fromUriPath`, `File::toUriPath`, `File::fileExtension`, manifest parsing with schema validation, `signatures.xml` parsing and manifest serialisation are fields of `Env`;
- what creating the time-stamp token yields (the authority's token, or the error its call throws) is a parameter of `Sign`;
- digests are symbolic: the algorithm and the bytes they cover.

Three behaviours of the code worth knowing:
- The head-manifest branch of the loader (src/ASiC_S.cpp:89-110) does not refuse a container whose chain is already started, unlike the `timestamp.tst` and `signatures.xml` branches. `Loader.ManifestAfterTimestampAccepted` states this.
- A manifest reference or `SigReference` that names a missing entry fails with the ZIP reader's missing-entry error (`EntryMissing`).
- In a chaining round the token is created only after the head manifest is frozen and the new head manifest is stored (src/ASiC_S.cpp:229-242). If creating it throws, both updates stay, and the stored head manifest's SigReference names a token the store does not hold. `Chaining.FailedChainRound` states this.

## Model

| member | source | states |
|---|---|---|
| AsicTypes.StartsWith | src/ASiC_S.cpp:64-66 | true exactly when the needle is no longer than the string and is its prefix |
| AsicTypes.FindEntry | src/ASiC_S.cpp:76 | the position of the first archive entry with the name, and none exactly when no entry has it |
| AsicTypes.FirstNamed | src/ASiC_S.cpp:152 | the find_if of fileDigest: none exactly when no store entry has the name, else the first position that has it |
| Counter.Decimal | src/ASiC_S.cpp:196 | decimal digits only, one digit exactly below 10, at most three exactly below 1000 |
| Counter.DecimalValue | src/ASiC_S.cpp:196 | the digits denote the number they were made from |
| Counter.LeadingZero | src/ASiC_S.cpp:196 | a padding zero keeps the denoted number |
| Counter.Pad3 | src/ASiC_S.cpp:196 | "%03zu": at least three digits, exactly three below 1000, denoting the number |
| Counter.Pad3Wide | src/ASiC_S.cpp:196 | from 1000 on, "%03zu" is the plain decimal digits, with no leading zero |
| Counter.Pad3Injective | src/ASiC_S.cpp:196 | distinct counters format differently |
| Counter.NumberedAt | src/ASiC_S.cpp:196 | a numbered name is the family prefix, the padded counter, the suffix |
| Counter.NumberedInjective | src/ASiC_S.cpp:193-196 | within one family the counter is determined by the name |
| Counter.SeriesDisjoint | src/ASiC_S.cpp:193-228 | no timestamp name is a manifest name |
| Counter.HeadNotNumbered | src/ASiC_S.cpp:224-229 | no numbered name is META-INF/ASiCArchiveManifest.xml, so a frozen manifest never keeps the head name |
| Counter.TimestampEntryNotNumbered | src/ASiC_S.cpp:189-196 | no numbered name is META-INF/timestamp.tst |
| Counter.TakenBound | src/ASiC_S.cpp:193-196 | if numbers 1..n of a family are all taken, the store holds at least n names (the probes terminate) |
| Counter.FreeIndex | src/ASiC_S.cpp:193-196 | the first number from i on whose name is unused: its name is absent and every lower number's name is present |
| Loader.XadesSignatures | src/ASiC_S.cpp:86-87 | one XAdES signature per signature element of signatures.xml, in document order |
| Loader.AddManifestGrows | src/ASiC_S.cpp:91-108 | a manifest that loads adds at least one signature, keeps the data files, only appends to the store and the chain, and records entries with root unset |
| Loader.AddManifestOrder | src/ASiC_S.cpp:96-107 | every Rootfile manifest is loaded first; then this manifest's token is the last signature, and its XML then its token are the last two store entries |
| Loader.AddRootfilesGrows | src/ASiC_S.cpp:96-100 | loading the Rootfile references only appends, with root unset |
| Loader.LoadEntryGrows | src/ASiC_S.cpp:68-120 | one loop step only appends; it adds the data file only when none was there and the entry is a data entry, and adds signatures only at an entry point |
| Loader.ErrorPersists | src/ASiC_S.cpp:68-120 | an error thrown at one entry is the outcome of the whole loop |
| Loader.PrefixGrows | src/ASiC_S.cpp:68-120 | the loop's state after fewer entries is a prefix of its later state |
| Loader.PrefixShape | src/ASiC_S.cpp:68-120 | every loop state has at most one data file, no root store entry, a data file only after a data entry and a signature only after an entry point |
| Loader.LoadedShape | src/ASiC_S.cpp:68-125 | a loaded container has exactly one data file, named by a top-level archive entry and typed application/octet-stream, a non-empty chain begun by an entry point, and no root entry |
| Loader.DataFileOrigin | src/ASiC_S.cpp:116-119 | the data file is an archive entry outside META-INF/ in no subfolder, typed application/octet-stream |
| Loader.SecondEntryPointRejected | src/ASiC_S.cpp:72-88 | once the chain is started, a later timestamp.tst or signatures.xml makes loading fail |
| Loader.TimestampStartsChain | src/ASiC_S.cpp:72-79 | a loaded timestamp.tst starts the chain |
| Loader.ManifestStartsChain | src/ASiC_S.cpp:89-110 | a loaded head manifest starts the chain |
| Loader.ManifestAfterTimestampAccepted | src/ASiC_S.cpp:89-110 | the head-manifest branch does not check for an existing chain |
| Loader.SkippedEntries | src/ASiC_S.cpp:70-112 | mimetype and META-INF/ entries that are no entry point leave the state unchanged |
| Loader.SecondDataFileRejected | src/ASiC_S.cpp:116-117 | a second data entry makes loading fail |
| Loader.SubfolderRejected | src/ASiC_S.cpp:113-115 | an entry outside META-INF/ whose directory is not "", "/" or "./" makes loading fail |
| Loader.NoDataEntryRejected | src/ASiC_S.cpp:122-123 | a loop that completes without any data entry ends in the missing-data-object error |
| Loader.NoEntryPointRejected | src/ASiC_S.cpp:124-125 | a loop that completes with a data file but no entry point ends in the missing-signature error |
| Loader.AddManifestFuel | src/ASiC_S.cpp:91-108 | the recursion bound only cuts recursion: with more depth the outcome is the same unless depth ran out |
| Loader.AddRootfilesFuel | src/ASiC_S.cpp:96-100 | the same for the loop over a manifest's references |
| Chaining.EntryRefs | src/ASiC_S.cpp:221-232 | one reference per store entry, in store order, each built by addRef from that entry |
| Chaining.Sign | src/ASiC_S.cpp:182-245 | another profile fails and leaves the state untouched; a created token appends one token signature and keeps the data files; a failed token creation returns its error and leaves chain and data files unchanged; the first signature appends exactly the timestamp.tst entry, or changes nothing when its token fails |
| Chaining.FreeIndexIsLeast | src/ASiC_S.cpp:193-196 | the probe returns n when 1..n-1 are taken and n is not |
| Chaining.NamesAfterRename | src/ASiC_S.cpp:229 | renaming one entry loses at most its old name |
| Chaining.FreezeStep | src/ASiC_S.cpp:223-230 | a frozen head gets a numbered manifest name that no entry has, and distinct names stay distinct |
| Chaining.RenameHeadsFrame | src/ASiC_S.cpp:221-231 | the rename loop keeps the length and every entry not named as the head manifest |
| Chaining.RenameHeadsFrozen | src/ASiC_S.cpp:221-231 | each head entry keeps media type and bytes, becomes root, and gets a fresh numbered manifest name |
| Chaining.RenameHeadsDistinct | src/ASiC_S.cpp:221-231 | pairwise distinct names stay pairwise distinct |
| Chaining.RenameHeadsShape | src/ASiC_S.cpp:221-231 | the three facts above for the whole loop |
| Chaining.TokenNameFresh | src/ASiC_S.cpp:193-196 | the chosen token name is not the head manifest's name and no name in the store, before or after freezing |
| Chaining.ArchiveManifestRefs | src/ASiC_S.cpp:216-232 | the new manifest's references: the data file first, then one per entry in store order |
| Chaining.RenamedRefs | src/ASiC_S.cpp:221-232 | each entry's reference carries its renamed name, its media type, the digest of its bytes, and Rootfile exactly when it was root or is frozen now |
| Chaining.ChainRound | src/ASiC_S.cpp:193-244 | a non-first signature freezes every head, keeps every other entry in place, and appends the head manifest (text/xml) then the token under the first free timestampNNN.tst |
| Chaining.ChainRoundOneHead | src/ASiC_S.cpp:221-243 | after a chaining round exactly one entry is the head manifest, the one just appended |
| Chaining.ChainRoundDistinct | src/ASiC_S.cpp:221-243 | pairwise distinct names stay distinct through a chaining round |
| Chaining.FailedChainRound | src/ASiC_S.cpp:229-242 | when the token cannot be created the error is returned and the chain is unchanged, but the heads stay frozen and the new head manifest stays stored, naming a token the store does not hold |
| Chaining.ManifestContent | src/ASiC_S.cpp:199-232 | the new manifest's SigReference names the token with the token media type; the data file's reference comes first without Rootfile, then one reference per earlier entry in store order with its renamed name, media type, Rootfile exactly when root or frozen now, and the digest of its bytes |
| Persist.SignSaveReload | src/ASiC_S.cpp:60-191 | a container holding only its data file, signed once and saved, reopens with the one token over the data file, the timestamp.tst entry and the data file typed application/octet-stream |
| Detector.IsContainerSimpleFormat | src/ASiC_S.cpp:254-273 | false for asice/sce/bdoc; true for asics/scs; otherwise true exactly when the first ZIP entry is mimetype holding the ASiC-S media type |
| Detector.ExtensionDecides | src/ASiC_S.cpp:257-260 | when the extension decides, the archive is not consulted |
| Detector.UnreadableNeedsExtension | src/ASiC_S.cpp:262-272 | an unreadable or non-ASiC-S archive is detected only by its extension |
| Container.AsicS.constructor | src/ASiC_S.cpp:53-55 | a new container is empty |
| Container.AsicS.CreateInternal | src/ASiC_S.cpp:135-143 | a new empty container with the path exactly for the asics/scs extensions, none otherwise |
| Container.AsicS.OpenInternal | src/ASiC_S.cpp:158-164 | none unless the path is detected as ASiC-S; otherwise a container opened from the archive |
| Container.AsicS.Open | src/ASiC_S.cpp:60-126 | the new container's state or error is what loading the archive computes |
| Container.AsicS.LoadArchive | src/ASiC_S.cpp:68-125 | the loop and final checks compute Loader.Load; the path is unchanged |
| Container.AsicS.LoadEntry | src/ASiC_S.cpp:69-119 | the loop body computes Loader.LoadEntry of the prior state; the path is unchanged |
| Container.AsicS.AddManifest | src/ASiC_S.cpp:91-108 | the recursive closure computes Loader.AddManifest of the prior state; the path is unchanged |
| Container.AsicS.Sign | src/ASiC_S.cpp:182-245 | the outcome and new state are Chaining.Sign of the prior state, failed token creation included; the path is unchanged |
| Container.AsicS.NextTokenName | src/ASiC_S.cpp:193-196 | the token probe ends on an unused name, the first free timestampNNN.tst |
| Container.AsicS.NextManifestName | src/ASiC_S.cpp:225-228 | the manifest probe, starting its counter at 0, ends on the first free ASiCArchiveManifestNNN.xml |
| Container.AsicS.FreezeHeads | src/ASiC_S.cpp:216-232 | the store loop renames as RenameHeads does and collects the data file's reference followed by one per renamed entry |
| Container.AsicS.Save | src/ASiC_S.cpp:171-180 | nothing written for an empty chain; a profile error when the first signature is not a time-stamp token; otherwise every store entry written once, in store order, under its name; this is Persist.Saved of the state |
| Container.AsicS.FileDigest | src/ASiC_S.cpp:150-156 | a not-found error exactly when no store entry has the name; otherwise the digest of the first entry with it |
| Container.AsicS.AddDataFileChecks | src/ASiC_S.cpp:128-133 | the base checks' failure first; then a duplicate error exactly when a data file exists |
| Container.AsicS.AddAdESSignature | src/ASiC_S.cpp:145-148 | always fails as not implemented |
| Container.AsicS.PrepareSignature | src/ASiC_S.cpp:166-169 | always fails as not implemented |

## Left out

- ZIP reading and writing (`load`, `z.list`, `z.extract`, `dataStream`, `ZipSerialize::addFile`, `readMimetype`): the archive is a sequence of named byte strings, and the ZIP reader's first-match lookup is assumed.
- `zproperty`, the per-entry ZIP properties passed to the writer, because they are kept by the base container, which is not part of this model.
- XML: opening, schema validation against en_31916201v010101.xsd, namespaces and serialisation are the `parseManifest` and `serialize` fields of `Env`, so a manifest is its SigReference and DataObjectReferences only.
- Digest computation: a digest is the algorithm and the bytes it covers. The default algorithm is written as "".
- Time-stamp token creation (`SignatureTST` and the authority it contacts): its outcome, the token bytes or an error, is a parameter of `Sign`. The model also takes every `SignatureTST`'s profile to be the time-stamp-token profile, whose exact string is not part of this model.
- `SignatureXAdES_LTA` and the parsing of `signatures.xml`: only the profiles of its signature elements are kept.
- The `File::` utilities and the base container's `addDataFileChecks`: these are not part of this model. The first are `Env` fields and the second is a parameter of `AddDataFileChecks`. The loader's `addDataFile` call is modelled as its own duplicate check only, without the base checks.
- Container.AsicS.AddManifest: the source's recursion has no bound and no cycle check. The model bounds it by `fuel` and reports `ManifestChainTooDeep` when the bound runs out; `Loader.AddManifestFuel` shows the bound changes no other outcome.
- Detector.IsContainerSimpleFormat: `list.front()` on an archive with no entries is undefined in the source; the model returns false for it.
- Counter.Pad3: the `size_t` counter's wrap-around is not modelled, because it needs 2^64 names in the store.
- Chaining.Sign: requires a data file when extending a chain, since the source dereferences `dataFiles().front()` unchecked.
- Container.AsicS.OpenInternal: the source reads the format probe and the archive from the same file; the model takes them as two parameters and does not tie the probe's listing to the archive's entry names.
- Persist.SignSaveReload: the mimetype entry and the data file are written by the generic container's save, which is not part of this model; the lemma places them in front of the entries `save` writes.
- Logging (`DEBUG`) and the `ContainerOpenCB` callback of `openInternal`, which is unused.
