/** What saving writes (ASiC_S::save), and the round trip of a freshly
    signed container through saving and reopening. */
module Persist {
  import opened AsicTypes
  import Loader
  import Chaining

  /** The entries save hands to the ZIP writer: none for an empty chain,
      an error when the chain is not time-stamp based, otherwise every
      store entry under its name, in store order. */
  function Saved(st: Snapshot): Result<Archive>
  {
    if st.signatures == [] then Ok([])
    else if ProfileOf(st.signatures[0]) != TimeStampTokenProfile then Err(UnsupportedProfile)
    else Ok(seq(|st.metadata|, k requires 0 <= k < |st.metadata| => ZipEntry(st.metadata[k].name, st.metadata[k].data)))
  }

  /** Sign a container holding only its data file, save it and open the
      archive again. The archive holds the mimetype entry and the data
      file, which the generic container writes, followed by what save
      writes. Reopening gives back the one time-stamp token over the
      data file and the timestamp.tst entry. The data file comes back
      typed application/octet-stream whatever its media type was. */
  lemma SignSaveReload(f: DataFile, token: Bytes, mimetype: Bytes, env: Env, fuel: nat)
    requires Loader.IsDataName(env, f.fileName)
    ensures var st := Chaining.Sign(Snapshot([], [], [f]), TimeStampTokenProfile, Ok(token), env).1;
      && Saved(st).Ok?
      && Loader.Load([ZipEntry(MimetypeName, mimetype), ZipEntry(f.fileName, f.content)] + Saved(st).value, env, fuel)
         == Ok(Snapshot([MetaEntry(TimestampEntry, TstMime, token, false)],
                        [Tst(OverDataFile, token)],
                        [DataFile(f.fileName, OctetStream, f.content)]))
      && Loader.Load([ZipEntry(MimetypeName, mimetype), ZipEntry(f.fileName, f.content)] + Saved(st).value, env, fuel)
         == Ok(st.(dataFiles := [DataFile(f.fileName, OctetStream, f.content)]))
  {
    var st := Chaining.Sign(Snapshot([], [], [f]), TimeStampTokenProfile, Ok(token), env).1;
    var e := MetaEntry(TimestampEntry, TstMime, token, false);
    assert st.metadata == [e];
    assert Saved(st).value == [ZipEntry(TimestampEntry, token)];
    var z := [ZipEntry(MimetypeName, mimetype), ZipEntry(f.fileName, f.content), ZipEntry(TimestampEntry, token)];
    assert [ZipEntry(MimetypeName, mimetype), ZipEntry(f.fileName, f.content)] + Saved(st).value == z;
    assert z[0].name != f.fileName && z[1].name == f.fileName;
    assert FindEntry(z, f.fileName) == Some(1);
    assert z[0].name != TimestampEntry && z[1].name != TimestampEntry && z[2].name == TimestampEntry;
    assert FindEntry(z, TimestampEntry) == Some(2);
    var loaded := Snapshot([], [], [DataFile(f.fileName, OctetStream, f.content)]);
    assert Loader.LoadPrefix(z, env, fuel, 1) == Ok(Empty);
    assert Loader.LoadPrefix(z, env, fuel, 2) == Ok(loaded);
    assert Extract(z, TimestampEntry) == Ok(token);
    assert TimestampEntry != MimetypeName;
    var step := Loader.LoadEntry(z, env, fuel, loaded, TimestampEntry);
    assert step.Ok? && step.value.signatures == [Tst(OverDataFile, token)];
    assert step.value.metadata == [e] && step.value.dataFiles == loaded.dataFiles;
    assert Loader.LoadPrefix(z, env, fuel, 3) == Ok(loaded.(signatures := [Tst(OverDataFile, token)], metadata := [e]));
  }
}
