/** What signing an ASiC-S container computes (ASiC_S::sign): the first
    signature is a plain time-stamp token over the data file; every later
    one freezes the current head manifest under a numbered name, builds a
    new head ASiCArchiveManifest over the data file and every stored
    artifact, and time-stamps that manifest. */
module Chaining {
  import opened AsicTypes
  import opened Counter

  /** The DataObjectReference of the data file: URI-encoded name, media
      type, no Rootfile, digest under the default algorithm. */
  function DataFileRef(f: DataFile, env: Env): DataObjectRef
  {
    DataObjectRef(f.mediaType, env.toUriPath(f.fileName), false, Digest(DefaultDigestMethod, f.content))
  }

  /** The DataObjectReference of a store entry (the `addRef` lambda). */
  function EntryRef(e: MetaEntry, env: Env): DataObjectRef
  {
    DataObjectRef(e.mime, env.toUriPath(e.name), e.root, EntryDigest(e, DefaultDigestMethod))
  }

  /** One reference per store entry, in store order. */
  function EntryRefs(ms: seq<MetaEntry>, env: Env): (r: seq<DataObjectRef>)
    ensures |r| == |ms|
    ensures forall k :: 0 <= k < |ms| ==> r[k] == EntryRef(ms[k], env)
  {
    if ms == [] then [] else EntryRefs(ms[..|ms| - 1], env) + [EntryRef(ms[|ms| - 1], env)]
  }

  /** The name the first probe chooses for the new token. */
  function TokenName(ms: seq<MetaEntry>): string
  {
    Numbered(Timestamps, FreeIndex(Names(ms), Timestamps, 1))
  }

  /** The name the second probe chooses for a frozen head manifest. */
  function FrozenName(ms: seq<MetaEntry>): string
  {
    Numbered(Manifests, FreeIndex(Names(ms), Manifests, 1))
  }

  /** A name of the numbered manifest family. */
  ghost predicate IsManifestName(name: string)
  {
    exists i: nat :: 1 <= i && name == Numbered(Manifests, i)
  }

  /** The loop over the store from position k on: each entry named
      META-INF/ASiCArchiveManifest.xml is renamed in place to the first
      unused numbered manifest name (probed against the store as it is at
      that moment) and marked root. */
  function RenameHeads(ms: seq<MetaEntry>, k: nat): seq<MetaEntry>
    requires k <= |ms|
    decreases |ms| - k
  {
    if k == |ms| then ms
    else if ms[k].name == HeadManifest then
      RenameHeads(ms[k := ms[k].(name := FrozenName(ms), root := true)], k + 1)
    else RenameHeads(ms, k + 1)
  }

  /** The new head manifest: a SigReference to the token name, then the
      data file, then every (renamed) store entry. */
  function ArchiveManifest(tokenName: string, f: DataFile, entries: seq<MetaEntry>, env: Env): Manifest
  {
    Manifest(SigRef(TstMime, tokenName), [DataFileRef(f, env)] + EntryRefs(entries, env))
  }

  /** The store entry of a new head manifest. */
  function HeadEntry(doc: Manifest, env: Env): MetaEntry
  {
    MetaEntry(HeadManifest, XmlMime, env.serialize(doc), false)
  }

  /** sign(signer): the outcome and the container's new state. `token` is
      what creating the time-stamp token yields: its bytes, or the error
      the time-stamping authority's call throws. In a chaining round that
      call comes after the head manifest is frozen and the new one stored,
      so a failure there keeps those two updates. */
  function Sign(st: Snapshot, profile: Profile, token: Result<Bytes>, env: Env): (r: (Result<Signature>, Snapshot))
    requires profile == TimeStampTokenProfile && st.signatures != [] ==> st.dataFiles != []
    ensures profile != TimeStampTokenProfile ==> r == (Err(UnsupportedProfile), st)
    ensures profile == TimeStampTokenProfile && token.Ok? ==>
      r.0.Ok? && r.0.value.Tst? && r.0.value.token == token.value
      && r.1.signatures == st.signatures + [r.0.value] && r.1.dataFiles == st.dataFiles
    ensures profile == TimeStampTokenProfile && token.Err? ==>
      r.0 == Err(token.error) && r.1.signatures == st.signatures && r.1.dataFiles == st.dataFiles
    ensures profile == TimeStampTokenProfile && st.signatures == [] && token.Ok? ==>
      r.0.value.subject == OverDataFile
      && r.1.metadata == st.metadata + [MetaEntry(TimestampEntry, TstMime, token.value, false)]
    ensures profile == TimeStampTokenProfile && st.signatures == [] && token.Err? ==> r.1 == st
  {
    if profile != TimeStampTokenProfile then (Err(UnsupportedProfile), st)
    else if st.signatures == [] then
      if token.Err? then (Err(token.error), st)
      else
        var sig := Tst(OverDataFile, token.value);
        (Ok(sig), st.(metadata := st.metadata + [MetaEntry(TimestampEntry, TstMime, token.value, false)],
                      signatures := st.signatures + [sig]))
    else
      var tokenName := TokenName(st.metadata);
      var renamed := RenameHeads(st.metadata, 0);
      var doc := ArchiveManifest(tokenName, st.dataFiles[0], renamed, env);
      if token.Err? then (Err(token.error), st.(metadata := renamed + [HeadEntry(doc, env)]))
      else
        var sig := Tst(OverManifest(HeadManifest, doc), token.value);
        (Ok(sig), st.(metadata := renamed + [HeadEntry(doc, env), MetaEntry(tokenName, TstMime, token.value, false)],
                      signatures := st.signatures + [sig]))
  }

  // ---------------------------------------------------------------------
  // Properties of signing

  predicate NamesDistinct(ms: seq<MetaEntry>)
  {
    forall i, j :: 0 <= i < j < |ms| ==> ms[i].name != ms[j].name
  }

  /** The names after replacing one entry's name. */
  lemma NamesAfterRename(ms: seq<MetaEntry>, k: nat, e: MetaEntry)
    requires k < |ms|
    ensures Names(ms) <= Names(ms[k := e]) + {ms[k].name}
  {
    forall n | n in Names(ms) ensures n in Names(ms[k := e]) + {ms[k].name} {
      var j :| 0 <= j < |ms| && ms[j].name == n;
      if j != k { assert ms[k := e][j].name == n; }
    }
  }

  /** Freezing one head entry. */
  lemma FreezeStep(ms: seq<MetaEntry>, k: nat)
    requires k < |ms| && ms[k].name == HeadManifest
    ensures var e := ms[k].(name := FrozenName(ms), root := true);
      && IsManifestName(FrozenName(ms)) && FrozenName(ms) != HeadManifest
      && FrozenName(ms) !in Names(ms)
      && Names(ms) <= Names(ms[k := e]) + {HeadManifest}
      && (NamesDistinct(ms) ==> NamesDistinct(ms[k := e]))
  {
    var i := FreeIndex(Names(ms), Manifests, 1);
    HeadNotNumbered(Manifests, i);
    var e := ms[k].(name := FrozenName(ms), root := true);
    NamesAfterRename(ms, k, e);
    if NamesDistinct(ms) {
      var ms' := ms[k := e];
      forall a, b | 0 <= a < b < |ms'| ensures ms'[a].name != ms'[b].name {
        if a == k { assert ms[b].name in Names(ms); }
        else if b == k { assert ms[a].name in Names(ms); }
      }
    }
  }

  /** The rename loop from position k on keeps the length, every earlier
      entry and every entry with another name. */
  lemma {:induction false} RenameHeadsFrame(ms: seq<MetaEntry>, k: nat)
    requires k <= |ms|
    ensures var r := RenameHeads(ms, k);
      && |r| == |ms|
      && (forall j :: 0 <= j < k ==> r[j] == ms[j])
      && (forall j :: k <= j < |ms| && ms[j].name != HeadManifest ==> r[j] == ms[j])
    decreases |ms| - k
  {
    if k < |ms| {
      if ms[k].name == HeadManifest {
        RenameHeadsFrame(ms[k := ms[k].(name := FrozenName(ms), root := true)], k + 1);
      } else {
        RenameHeadsFrame(ms, k + 1);
      }
    }
  }

  /** Every head entry from position k on keeps its media type and bytes,
      is marked root, and gets a numbered manifest name no entry had before. */
  lemma {:induction false} RenameHeadsFrozen(ms: seq<MetaEntry>, k: nat)
    requires k <= |ms|
    ensures var r := RenameHeads(ms, k);
      |r| == |ms| &&
      forall j :: k <= j < |ms| && ms[j].name == HeadManifest ==>
        r[j] == ms[j].(name := r[j].name, root := true)
        && IsManifestName(r[j].name) && r[j].name != HeadManifest && r[j].name !in Names(ms)
    decreases |ms| - k
  {
    RenameHeadsFrame(ms, k);
    if k < |ms| {
      if ms[k].name == HeadManifest {
        var ms' := ms[k := ms[k].(name := FrozenName(ms), root := true)];
        FreezeStep(ms, k);
        RenameHeadsFrozen(ms', k + 1);
        RenameHeadsFrame(ms', k + 1);
      } else {
        RenameHeadsFrozen(ms, k + 1);
      }
    }
  }

  /** Names that were pairwise distinct stay pairwise distinct. */
  lemma {:induction false} RenameHeadsDistinct(ms: seq<MetaEntry>, k: nat)
    requires k <= |ms| && NamesDistinct(ms)
    ensures NamesDistinct(RenameHeads(ms, k))
    decreases |ms| - k
  {
    if k < |ms| {
      if ms[k].name == HeadManifest {
        FreezeStep(ms, k);
        RenameHeadsDistinct(ms[k := ms[k].(name := FrozenName(ms), root := true)], k + 1);
      } else {
        RenameHeadsDistinct(ms, k + 1);
      }
    }
  }

  /** The whole rename loop, as used by a chaining round. */
  lemma RenameHeadsShape(ms: seq<MetaEntry>)
    ensures var r := RenameHeads(ms, 0);
      && |r| == |ms|
      && (forall j :: 0 <= j < |ms| && ms[j].name != HeadManifest ==> r[j] == ms[j])
      && (forall j :: 0 <= j < |ms| && ms[j].name == HeadManifest ==>
            r[j] == ms[j].(name := r[j].name, root := true)
            && IsManifestName(r[j].name) && r[j].name != HeadManifest && r[j].name !in Names(ms))
      && (NamesDistinct(ms) ==> NamesDistinct(r))
  {
    RenameHeadsFrame(ms, 0);
    RenameHeadsFrozen(ms, 0);
    if NamesDistinct(ms) { RenameHeadsDistinct(ms, 0); }
  }

  /** A chaining round, written out: the outcome and new state of Sign
      when the chain is non-empty, for either outcome of token creation. */
  lemma RoundUnfold(st: Snapshot, token: Result<Bytes>, env: Env)
    requires st.signatures != [] && st.dataFiles != []
    ensures var tokenName := TokenName(st.metadata);
      var renamed := RenameHeads(st.metadata, 0);
      var doc := ArchiveManifest(tokenName, st.dataFiles[0], renamed, env);
      Sign(st, TimeStampTokenProfile, token, env)
        == if token.Err? then (Err(token.error), st.(metadata := renamed + [HeadEntry(doc, env)]))
           else (Ok(Tst(OverManifest(HeadManifest, doc), token.value)),
                 st.(metadata := renamed + [HeadEntry(doc, env), MetaEntry(tokenName, TstMime, token.value, false)],
                     signatures := st.signatures + [Tst(OverManifest(HeadManifest, doc), token.value)]))
  {
  }

  /** The token name chosen for a round is not the head manifest's name and
      is no name the store holds once its heads are frozen. */
  lemma TokenNameFresh(ms: seq<MetaEntry>)
    ensures TokenName(ms) != HeadManifest && TokenName(ms) !in Names(ms)
    ensures var renamed := RenameHeads(ms, 0);
      |renamed| == |ms| && forall k :: 0 <= k < |ms| ==> renamed[k].name != TokenName(ms)
  {
    RenameHeadsShape(ms);
    var renamed := RenameHeads(ms, 0);
    var i := FreeIndex(Names(ms), Timestamps, 1);
    HeadNotNumbered(Timestamps, i);
    forall k | 0 <= k < |ms| ensures renamed[k].name != TokenName(ms) {
      if ms[k].name == HeadManifest {
        var j: nat :| 1 <= j && renamed[k].name == Numbered(Manifests, j);
        SeriesDisjoint(i, j);
      } else {
        assert ms[k].name in Names(ms);
      }
    }
  }

  /** The references of a new head manifest, position by position. */
  lemma ArchiveManifestRefs(tokenName: string, f: DataFile, entries: seq<MetaEntry>, env: Env)
    ensures var doc := ArchiveManifest(tokenName, f, entries, env);
      && |doc.dataRefs| == |entries| + 1 && doc.dataRefs[0] == DataFileRef(f, env)
      && forall k :: 0 <= k < |entries| ==> doc.dataRefs[k + 1] == EntryRef(entries[k], env)
  {
    var refs := EntryRefs(entries, env);
    var doc := ArchiveManifest(tokenName, f, entries, env);
    forall k | 0 <= k < |entries| ensures doc.dataRefs[k + 1] == EntryRef(entries[k], env) {
      assert doc.dataRefs[k + 1] == refs[k];
    }
  }

  /** A chaining round (a signature when the chain is non-empty): the head
      manifest is frozen under a fresh numbered name and marked root,
      every other entry keeps name, media type, bytes, flag and position,
      and the new head manifest and then the token, under the first unused
      timestampNNN.tst, are appended. */
  lemma ChainRound(st: Snapshot, token: Bytes, env: Env)
    requires st.signatures != [] && st.dataFiles != []
    ensures var (r, st') := Sign(st, TimeStampTokenProfile, Ok(token), env);
      var ms, ms', n := st.metadata, st'.metadata, |st.metadata|;
      && r.Ok? && r.value.subject.OverManifest? && r.value.subject.file == HeadManifest
      && |ms'| == n + 2
      && (forall k :: 0 <= k < n && ms[k].name != HeadManifest ==> ms'[k] == ms[k])
      && (forall k :: 0 <= k < n && ms[k].name == HeadManifest ==>
            ms'[k] == ms[k].(name := ms'[k].name, root := true)
            && IsManifestName(ms'[k].name) && ms'[k].name !in Names(ms))
      && ms'[n] == MetaEntry(HeadManifest, XmlMime, env.serialize(r.value.subject.doc), false)
      && ms'[n + 1] == MetaEntry(TokenName(ms), TstMime, token, false)
      && TokenName(ms) !in Names(ms)
  {
    var ms := st.metadata;
    var n := |ms|;
    RoundUnfold(st, Ok(token), env);
    RenameHeadsShape(ms);
    TokenNameFresh(ms);
    var ms' := Sign(st, TimeStampTokenProfile, Ok(token), env).1.metadata;
    assert forall k :: 0 <= k < n ==> ms'[k] == RenameHeads(ms, 0)[k];
  }

  /** After a chaining round exactly one entry is named
      META-INF/ASiCArchiveManifest.xml: the one just appended. */
  lemma ChainRoundOneHead(st: Snapshot, token: Bytes, env: Env)
    requires st.signatures != [] && st.dataFiles != []
    ensures var ms, ms' := st.metadata, Sign(st, TimeStampTokenProfile, Ok(token), env).1.metadata;
      && |ms'| == |ms| + 2
      && (forall k :: 0 <= k < |ms'| ==> (ms'[k].name == HeadManifest <==> k == |ms|))
  {
    var ms := st.metadata;
    var n := |ms|;
    RoundUnfold(st, Ok(token), env);
    RenameHeadsShape(ms);
    TokenNameFresh(ms);
    var renamed := RenameHeads(ms, 0);
    var ms' := Sign(st, TimeStampTokenProfile, Ok(token), env).1.metadata;
    forall k | 0 <= k < n ensures ms'[k].name != HeadManifest {
      assert ms'[k] == renamed[k];
    }
  }

  /** Names that were pairwise distinct before a chaining round stay
      distinct afterwards. */
  lemma ChainRoundDistinct(st: Snapshot, token: Bytes, env: Env)
    requires st.signatures != [] && st.dataFiles != [] && NamesDistinct(st.metadata)
    ensures NamesDistinct(Sign(st, TimeStampTokenProfile, Ok(token), env).1.metadata)
  {
    var ms := st.metadata;
    var n := |ms|;
    RoundUnfold(st, Ok(token), env);
    ChainRoundOneHead(st, token, env);
    RenameHeadsDistinct(ms, 0);
    TokenNameFresh(ms);
    var renamed := RenameHeads(ms, 0);
    var ms' := Sign(st, TimeStampTokenProfile, Ok(token), env).1.metadata;
    assert ms' == renamed + [ms'[n], ms'[n + 1]];
    forall a, b | 0 <= a < b < n + 2 ensures ms'[a].name != ms'[b].name {
      if b == n + 1 && a < n {
        assert ms'[a] == renamed[a];
      } else if b < n {
        assert ms'[a] == renamed[a] && ms'[b] == renamed[b];
      }
    }
  }

  /** The new manifest's content: one SigReference to the chosen token name
      with the time-stamp-token type; the data file first, Rootfile
      omitted; then each pre-existing entry in store order under its name
      after renaming, with its media type, Rootfile iff its root flag is
      set (now or by this round's freezing), and the digest of its bytes. */
  lemma ManifestContent(st: Snapshot, token: Bytes, env: Env)
    requires st.signatures != [] && st.dataFiles != []
    ensures var (r, st') := Sign(st, TimeStampTokenProfile, Ok(token), env);
      var doc, ms, ms', n, f := r.value.subject.doc, st.metadata, st'.metadata, |st.metadata|, st.dataFiles[0];
      && doc.sigRef == SigRef(TstMime, TokenName(ms))
      && |doc.dataRefs| == n + 1
      && doc.dataRefs[0] == DataObjectRef(f.mediaType, env.toUriPath(f.fileName), false, Digest(DefaultDigestMethod, f.content))
      && (forall k :: 0 <= k < n ==>
            doc.dataRefs[k + 1] == DataObjectRef(ms'[k].mime, env.toUriPath(ms'[k].name), ms'[k].root,
                                                 Digest(DefaultDigestMethod, ms[k].data)))
      && (forall k :: 0 <= k < n ==> (doc.dataRefs[k + 1].rootfile <==> ms[k].root || ms[k].name == HeadManifest))
  {
    var ms := st.metadata;
    var renamed := RenameHeads(ms, 0);
    var doc := ArchiveManifest(TokenName(ms), st.dataFiles[0], renamed, env);
    RoundUnfold(st, Ok(token), env);
    RenamedRefs(ms, TokenName(ms), st.dataFiles[0], env);
    var ms' := Sign(st, TimeStampTokenProfile, Ok(token), env).1.metadata;
    assert ms' == renamed + [ms'[|ms|], ms'[|ms| + 1]];
    assert forall k :: 0 <= k < |ms| ==> ms'[k] == renamed[k];
  }

  /** The references after the rename loop: entry k's reference is built
      from its renamed self, keeps the digest of its bytes, and is a
      Rootfile exactly when the entry was root or is frozen now. */
  lemma RenamedRefs(ms: seq<MetaEntry>, tokenName: string, f: DataFile, env: Env)
    ensures var renamed := RenameHeads(ms, 0);
      var doc := ArchiveManifest(tokenName, f, renamed, env);
      && |renamed| == |ms| && |doc.dataRefs| == |ms| + 1
      && doc.dataRefs[0] == DataFileRef(f, env)
      && (forall k :: 0 <= k < |ms| ==>
            doc.dataRefs[k + 1] == DataObjectRef(renamed[k].mime, env.toUriPath(renamed[k].name), renamed[k].root,
                                                 Digest(DefaultDigestMethod, ms[k].data)))
      && (forall k :: 0 <= k < |ms| ==> (doc.dataRefs[k + 1].rootfile <==> ms[k].root || ms[k].name == HeadManifest))
  {
    RenameHeadsShape(ms);
    var renamed := RenameHeads(ms, 0);
    var doc := ArchiveManifest(tokenName, f, renamed, env);
    ArchiveManifestRefs(tokenName, f, renamed, env);
    forall k | 0 <= k < |ms|
      ensures doc.dataRefs[k + 1] == DataObjectRef(renamed[k].mime, env.toUriPath(renamed[k].name), renamed[k].root,
                                                    Digest(DefaultDigestMethod, ms[k].data))
      ensures doc.dataRefs[k + 1].rootfile <==> ms[k].root || ms[k].name == HeadManifest
    {
      assert doc.dataRefs[k + 1] == EntryRef(renamed[k], env);
      if ms[k].name != HeadManifest {
        assert renamed[k] == ms[k];
      } else {
        assert renamed[k] == ms[k].(name := renamed[k].name, root := true);
      }
    }
  }

  /** A chaining round whose token creation fails: the error is the
      outcome, the chain is unchanged, the heads stay frozen, and the new
      head manifest stays stored as the last entry, although its
      SigReference names a token the store does not hold. */
  lemma FailedChainRound(st: Snapshot, e: Error, env: Env)
    requires st.signatures != [] && st.dataFiles != []
    ensures var (r, st') := Sign(st, TimeStampTokenProfile, Err(e), env);
      r == Err(e) && st'.signatures == st.signatures && st'.dataFiles == st.dataFiles
      && |st'.metadata| == |st.metadata| + 1
    ensures var (r, st') := Sign(st, TimeStampTokenProfile, Err(e), env);
      var ms, ms', n := st.metadata, st'.metadata, |st.metadata|;
      var doc := ArchiveManifest(TokenName(ms), st.dataFiles[0], ms'[..n], env);
      && (forall k :: 0 <= k < n && ms[k].name != HeadManifest ==> ms'[k] == ms[k])
      && (forall k :: 0 <= k < n && ms[k].name == HeadManifest ==>
            ms'[k] == ms[k].(name := ms'[k].name, root := true) && IsManifestName(ms'[k].name))
      && ms'[n] == MetaEntry(HeadManifest, XmlMime, env.serialize(doc), false)
      && doc.sigRef.uri == TokenName(ms) && TokenName(ms) !in Names(ms')
  {
    var ms := st.metadata;
    var n := |ms|;
    RoundUnfold(st, Err(e), env);
    RenameHeadsShape(ms);
    TokenNameFresh(ms);
    var renamed := RenameHeads(ms, 0);
    var ms' := Sign(st, TimeStampTokenProfile, Err(e), env).1.metadata;
    assert ms' == renamed + [ms'[n]];
    assert ms'[..n] == renamed;
    assert forall k :: 0 <= k < n ==> ms'[k] == renamed[k];
    assert TokenName(ms) !in Names(ms') by {
      forall k | 0 <= k < |ms'| ensures ms'[k].name != TokenName(ms) {
        if k < n { assert ms'[k] == renamed[k]; }
      }
    }
  }

  /** The probe settles on the least unused number: if numbers 1..n-1 are
      taken and n is not, the probe returns n. */
  lemma FreeIndexIsLeast(names: set<string>, s: Series, n: nat)
    requires 1 <= n && Numbered(s, n) !in names
    requires forall j :: 1 <= j < n ==> Numbered(s, j) in names
    ensures FreeIndex(names, s, 1) == n
  {
  }
}
