/**
 * Resuming an interrupted download.
 *
 * Each call of `downloadModelInChunks` probes the latency again, picks a chunk
 * size from it and rewrites the metadata with that size, while the chunks an
 * earlier call stored keep that call's boundaries: a chunk key carries only
 * the index. When the probe's answer changes between two calls, cached chunk
 * `i` is copied to offset `i * newChunkSize` although it holds the bytes at
 * `i * oldChunkSize`, and the download completes with a corrupted buffer.
 *
 * `ReprobeBreaksResume` exhibits this on `DownloadRun`, which models the code
 * as written. `StableDownloadRun` is the evidently intended behaviour: an
 * attempt keeps the chunk size the metadata records and probes only when
 * there is none; `StableResume` proves that a resumed download then returns
 * the artifact whenever the server and the store agree with it.
 */
module Resume {
  import opened Wrappers
  import opened Cache
  import opened ChunkPlan
  import opened LoadPlan

  /** Whatever the server returns for a Range request inside the artifact is exactly that range of the artifact. */
  ghost predicate Honest(net: Network, artifact: seq<byte>) {
    forall s: Span :: s.start <= s.end < |artifact| && net.fetchRange(s).RangeResponse? ==>
      net.fetchRange(s).body == artifact[s.start .. s.end + 1]
  }

  /** Every chunk the store holds for `id` below the chunk count is that chunk's slice of the artifact. */
  predicate StoreAgrees(env: StoreEnv, entries: map<string, Blob>, id: string, cs: nat, artifact: seq<byte>)
    requires cs > 0 && |artifact| > 0
  {
    forall i :: 0 <= i < CeilDiv(|artifact|, cs) && Present(env, entries, ChunkKey(id, i)) ==>
      StoredBytes(entries, ChunkKey(id, i)) == Slice(artifact, i, cs)
  }

  // ---------------------------------------------------------------------------
  // As written: the chunk size is probed again on every attempt
  // ---------------------------------------------------------------------------

  const Env0: StoreEnv := StoreEnv(true, {}, false)
  const Artifact: seq<byte> := [1, 2]

  /** A server that answers the first byte and then fails. */
  function FirstByteOnly(s: Span): RangeReply {
    if s == Span(0, 0) then RangeResponse(206, [1]) else RangeNetworkError
  }

  /** A server that answers every range of `Artifact`. */
  function ServeAll(s: Span): RangeReply {
    if s.start <= s.end < |Artifact| then RangeResponse(206, Artifact[s.start .. s.end + 1]) else RangeNetworkError
  }

  /** The first attempt: the latency probe fails, so the chunk size falls back to one byte. */
  const Interrupted: Network := Network(HeadResponse(200, 2), None, FirstByteOnly, None, 0)
  /** The second attempt: the probe answers in 50 ms, so the chunk size becomes 20 MiB. */
  const Resumed: Network := Network(HeadResponse(200, 2), Some(50), ServeAll, None, 1)

  /** The store the first attempt leaves: its metadata (one-byte chunks) and chunk 0. */
  function AfterInterruption(): map<string, Blob> {
    map[MetadataKey("m") := MetadataRecord("m", "u", 2, 2, 1, 0), ChunkKey("m", 0) := Bytes([1])]
  }

  lemma InterruptedAttempt()
    ensures DownloadRun(Env0, map[], Interrupted, "m", "u", 1).result == Err(NetworkFailure)
    ensures DownloadRun(Env0, map[], Interrupted, "m", "u", 1).entries == AfterInterruption()
  {
    var e0: map<string, Blob> := map[];
    var k0, k1, mk := ChunkKey("m", 0), ChunkKey("m", 1), MetadataKey("m");
    ChunkKeyNotMetadataKey("m", 0);
    ChunkKeyNotMetadataKey("m", 1);
    ChunkKeysDistinct("m", 0, 1);
    assert SizeFrom(Env0, e0, "m", Interrupted.head) == Ok(2);
    assert ChunkSizeFor(Interrupted.latency, 1) == 1;
    assert CeilDiv(2, 1) == 2;
    var e1 := WithMetadata(Env0, e0, Interrupted, "m", "u", 2, 1);
    assert e1 == map[mk := MetadataRecord("m", "u", 2, 2, 1, 0)];
    assert !Present(Env0, e1, k0) && !Present(Env0, e1, k1);
    assert CachedFits(Env0, e1, "m", 1, 2, 0) && CachedFits(Env0, e1, "m", 1, 2, 1);
    assert ScanStop(Env0, e1, "m", 1, 2, 2, 0) == 2;
    assert ScanCompletes(Env0, e1, "m", 1, 2);
    assert PendingChunks(Env0, e1, "m", 1) == [0];
    assert PendingChunks(Env0, e1, "m", 2) == [0, 1];
    assert CachedChunks(Env0, e1, "m", 1) == [];
    assert CachedChunks(Env0, e1, "m", 2) == [];
    var ts := PendingTasks(Env0, e1, "m", 1, 2);
    assert ts == [Task(k0, Span(0, 0)), Task(k1, Span(1, 1))];
    assert StepError(Env0, Interrupted, 2, 0, ts[0]).None?;
    assert StepError(Env0, Interrupted, 2, 1, ts[1]) == Some(NetworkFailure);
    assert FirstStop(Env0, Interrupted, 2, ts, 1) == 1;
    FirstStopSkip(Env0, Interrupted, 2, ts, 1);
    assert SavedCount(Env0, Interrupted, 2, ts, 1) == 1;
    assert ts[..1] == [Task(k0, Span(0, 0))];
    assert SaveFetched(Env0, e1, Interrupted, ts[..1][..0]) == e1;
    assert SaveFetched(Env0, e1, Interrupted, ts[..1]) == AfterInterruption();
    FetchRunParts(Env0, e1, Interrupted, "m", 1, 2, ts, 1, 0, ScannedBuffer(Env0, e1, "m", 1, 2, 2));
    assert DownloadRun(Env0, e0, Interrupted, "m", "u", 1) == FetchRun(Env0, e1, Interrupted, "m", 1, 2);
  }

  lemma ResumedAttempt()
    ensures DownloadRun(Env0, AfterInterruption(), Resumed, "m", "u", 1).result == Ok([1, 0])
  {
    var e2 := AfterInterruption();
    var k0, mk := ChunkKey("m", 0), MetadataKey("m");
    ChunkKeyNotMetadataKey("m", 0);
    var cs := 20 * MiB;
    assert MetadataView(Env0, e2, "m") == Some(MetadataRecord("m", "u", 2, 2, 1, 0));
    assert SizeFrom(Env0, e2, "m", Resumed.head) == Ok(2);
    assert ChunkSizeFor(Resumed.latency, 1) == cs;
    assert CeilDiv(2, cs) == 1;
    var e3 := WithMetadata(Env0, e2, Resumed, "m", "u", 2, 1);
    assert e3 == e2[mk := MetadataRecord("m", "u", 2, 1, cs, 1)];
    assert Present(Env0, e3, k0) && StoredBytes(e3, k0) == [1];
    assert CachedFits(Env0, e3, "m", cs, 2, 0);
    assert ScanStop(Env0, e3, "m", cs, 2, 1, 0) == 1;
    assert ScanCompletes(Env0, e3, "m", cs, 2);
    assert PendingChunks(Env0, e3, "m", 1) == [];
    assert CachedChunks(Env0, e3, "m", 1) == [0];
    assert PendingTasks(Env0, e3, "m", cs, 2) == [];
    var ws := CachedWrites(e3, "m", cs, [0]);
    assert ws == [Write(0, [1])];
    assert ApplyWrites(Zeros(2), ws[..0]) == Zeros(2);
    assert ApplyWrites(Zeros(2), ws) == Paste(Zeros(2), Write(0, [1]));
    assert Paste(Zeros(2), Write(0, [1])) == [1, 0];
    var base := ScannedBuffer(Env0, e3, "m", cs, 2, 1);
    assert base == [1, 0];
    FetchRunNoTasks(Env0, e3, Resumed, "m", cs, 2, 1, base);
    assert DownloadRun(Env0, e2, Resumed, "m", "u", 1) == FetchRun(Env0, e3, Resumed, "m", cs, 2);
  }

  lemma HonestServers()
    ensures Honest(Interrupted, Artifact) && Honest(Resumed, Artifact)
  {
  }

  /**
   * Both servers are honest and the store starts empty, yet the first attempt
   * stores chunk 0 of a one-byte cut and fails, and the second attempt cuts
   * the artifact into a single 20 MiB chunk, finds "chunk 0" cached, and
   * completes with `[1, 0]` instead of `[1, 2]`.
   */
  lemma ReprobeBreaksResume()
    ensures Honest(Interrupted, Artifact) && Honest(Resumed, Artifact)
    ensures var first := DownloadRun(Env0, map[], Interrupted, "m", "u", 1);
            first.result == Err(NetworkFailure)
            && DownloadRun(Env0, first.entries, Resumed, "m", "u", 1).result == Ok([1, 0])
            && DownloadRun(Env0, first.entries, Resumed, "m", "u", 1).result != Ok(Artifact)
  {
    HonestServers();
    InterruptedAttempt();
    ResumedAttempt();
    var out: seq<byte> := [1, 0];
    assert out[1] != Artifact[1];
  }

  // ---------------------------------------------------------------------------
  // Intended: an attempt keeps the chunk size the metadata records
  // ---------------------------------------------------------------------------

  /** The chunk size the metadata records when it records one, otherwise the probe's choice. */
  function StableChunkSize(env: StoreEnv, entries: map<string, Blob>, id: string, latency: Option<nat>,
                           fallback: nat): (cs: nat)
    requires fallback > 0
    ensures cs > 0
    ensures HasMetadata(MetadataView(env, entries, id)) && ChunkSizeField(MetadataView(env, entries, id).value) != 0
            ==> cs == ChunkSizeField(MetadataView(env, entries, id).value)
  {
    var mv := MetadataView(env, entries, id);
    if HasMetadata(mv) && ChunkSizeField(mv.value) != 0 then ChunkSizeField(mv.value)
    else ChunkSizeFor(latency, fallback)
  }

  /** `downloadModelInChunks` with the chunk size kept across attempts; everything else as in `DownloadRun`. */
  function StableDownloadRun(env: StoreEnv, entries: map<string, Blob>, net: Network, id: string, url: string,
                             fallback: nat): Run
    requires fallback > 0
  {
    match SizeFrom(env, entries, id, net.head)
    case Err(e) => Run(Err(e), [OnError(e)], [], entries, None)
    case Ok(total) =>
      var cs := StableChunkSize(env, entries, id, net.latency, fallback);
      AttemptRun(env, AfterPut(env, entries, MetadataKey(id), MetadataRecord(id, url, total, CeilDiv(total, cs), cs, net.now)),
                 net, id, cs, total)
  }

  /** On a store with no metadata the corrected attempt is the attempt as written. */
  lemma StableAgreesWithoutMetadata(env: StoreEnv, entries: map<string, Blob>, net: Network, id: string, url: string,
                                    fallback: nat)
    requires fallback > 0 && !HasMetadata(MetadataView(env, entries, id))
    ensures StableDownloadRun(env, entries, net, id, url, fallback) == DownloadRun(env, entries, net, id, url, fallback)
  {
  }

  /** The metadata write leaves every chunk's agreement with the artifact as it was. */
  lemma AgreesAfterMetadata(env: StoreEnv, entries: map<string, Blob>, id: string, cs: nat, artifact: seq<byte>, rec: Blob)
    requires cs > 0 && |artifact| > 0 && StoreAgrees(env, entries, id, cs, artifact)
    ensures StoreAgrees(env, AfterPut(env, entries, MetadataKey(id), rec), id, cs, artifact)
  {
    forall i | 0 <= i < CeilDiv(|artifact|, cs) {
      ChunkKeyNotMetadataKey(id, i);
    }
  }

  /** Agreeing chunks fit their ranges, so the scan copies them all. */
  lemma AgreesScanCompletes(env: StoreEnv, e1: map<string, Blob>, id: string, cs: nat, artifact: seq<byte>)
    requires cs > 0 && |artifact| > 0 && StoreAgrees(env, e1, id, cs, artifact)
    ensures ScanCompletes(env, e1, id, cs, |artifact|)
  {
    forall i | 0 <= i < CeilDiv(|artifact|, cs) ensures CachedFits(env, e1, id, cs, |artifact|, i) {
      SpanInside(|artifact|, cs, i);
    }
  }

  /** An honest server's accepted reply for a chunk is that chunk's slice. */
  lemma HonestSlice(net: Network, artifact: seq<byte>, cs: nat, i: nat)
    requires cs > 0 && |artifact| > 0 && i < CeilDiv(|artifact|, cs) && Honest(net, artifact)
    requires net.fetchRange(ChunkSpan(i, cs, |artifact|)).RangeResponse?
    ensures Body(net.fetchRange(ChunkSpan(i, cs, |artifact|))) == Slice(artifact, i, cs)
  {
    SpanInside(|artifact|, cs, i);
  }

  /** A chunk the fetch phase saved holds the body of an accepted reply, which an honest server makes its true slice. */
  lemma SavedChunkAgrees(env: StoreEnv, e1: map<string, Blob>, net: Network, id: string, cs: nat, artifact: seq<byte>,
                         saved: seq<Task>, ps: seq<nat>, j: nat)
    requires cs > 0 && |artifact| > 0 && Honest(net, artifact)
    requires |saved| == |ps| && j < |saved| && ps[j] < CeilDiv(|artifact|, cs)
    requires forall k :: 0 <= k < |saved| ==> saved[k] == TaskFor(id, cs, |artifact|, ps[k])
    requires forall a, b :: 0 <= a < |ps| && 0 <= b < |ps| && a != b ==> ps[a] != ps[b]
    requires Reachable(env, saved[j].key)
    requires net.fetchRange(saved[j].span).RangeResponse?
    ensures StoredBytes(SaveFetched(env, e1, net, saved), ChunkKey(id, ps[j])) == Slice(artifact, ps[j], cs)
  {
    forall k | 0 <= k < |saved| && k != j ensures saved[k].key != saved[j].key {
      ChunkKeysDistinct(id, ps[k], ps[j]);
    }
    SaveFetchedAt(env, e1, net, saved, j);
    HonestSlice(net, artifact, cs, ps[j]);
  }

  /** Saving accepted replies of an honest server for distinct chunks keeps the store in agreement. */
  lemma SavedKeepAgreement(env: StoreEnv, e1: map<string, Blob>, net: Network, id: string, cs: nat, artifact: seq<byte>,
                           saved: seq<Task>, ps: seq<nat>)
    requires cs > 0 && |artifact| > 0 && StoreAgrees(env, e1, id, cs, artifact) && Honest(net, artifact)
    requires |saved| == |ps|
    requires forall k :: 0 <= k < |saved| ==> ps[k] < CeilDiv(|artifact|, cs) && saved[k] == TaskFor(id, cs, |artifact|, ps[k])
    requires forall a, b :: 0 <= a < |ps| && 0 <= b < |ps| && a != b ==> ps[a] != ps[b]
    requires forall k :: 0 <= k < |saved| ==> net.fetchRange(saved[k].span).RangeResponse?
    ensures StoreAgrees(env, SaveFetched(env, e1, net, saved), id, cs, artifact)
  {
    var after := SaveFetched(env, e1, net, saved);
    forall i | 0 <= i < CeilDiv(|artifact|, cs) && Present(env, after, ChunkKey(id, i))
      ensures StoredBytes(after, ChunkKey(id, i)) == Slice(artifact, i, cs)
    {
      var key := ChunkKey(id, i);
      if j :| 0 <= j < |saved| && saved[j].key == key {
        if ps[j] != i {
          ChunkKeysDistinct(id, ps[j], i);
        }
        SavedChunkAgrees(env, e1, net, id, cs, artifact, saved, ps, j);
      } else {
        SaveFetchedKeeps(env, e1, net, saved, key);
      }
    }
  }

  /** Every chunk the fetch phase saves came with an accepted reply. */
  lemma SavedRepliesAccepted(env: StoreEnv, net: Network, total: nat, ts: seq<Task>)
    ensures var m := FirstStop(env, net, total, ts, 0);
            forall k :: 0 <= k < SavedCount(env, net, total, ts, m) ==> net.fetchRange(ts[k].span).RangeResponse?
  {
    var m := FirstStop(env, net, total, ts, 0);
    forall k | 0 <= k < SavedCount(env, net, total, ts, m) ensures net.fetchRange(ts[k].span).RangeResponse? {
      assert StepError(env, net, total, k, ts[k]).None? || StepError(env, net, total, k, ts[k]) == Some(BufferOverflow);
    }
  }

  /** Fetching from an honest server stores only true slices, whatever stops the fetch phase. */
  lemma FetchKeepsAgreement(env: StoreEnv, e1: map<string, Blob>, net: Network, id: string, cs: nat, artifact: seq<byte>)
    requires cs > 0 && |artifact| > 0 && StoreAgrees(env, e1, id, cs, artifact) && Honest(net, artifact)
    requires ScanCompletes(env, e1, id, cs, |artifact|)
    ensures StoreAgrees(env, FetchRun(env, e1, net, id, cs, |artifact|).entries, id, cs, artifact)
  {
    var total := |artifact|;
    var n := CeilDiv(total, cs);
    var ps := PendingChunks(env, e1, id, n);
    var ts := PendingTasks(env, e1, id, cs, total);
    var m := FirstStop(env, net, total, ts, 0);
    var c := SavedCount(env, net, total, ts, m);
    PendingChunksFacts(env, e1, id, n);
    StrictlyIncreasingDistinct(ps);
    SavedRepliesAccepted(env, net, total, ts);
    SavedKeepAgreement(env, e1, net, id, cs, artifact, ts[..c], ps[..c]);
  }

  /** Every chunk the corrected attempt leaves in the store is a true slice, and the metadata still records the size and chunk size. */
  lemma StableKeepsAgreement(env: StoreEnv, entries: map<string, Blob>, net: Network, id: string, url: string,
                             fallback: nat, artifact: seq<byte>, latency: Option<nat>, head: HeadReply)
    requires fallback > 0 && |artifact| > 0 && Honest(net, artifact)
    requires SizeFrom(env, entries, id, net.head) == Ok(|artifact|)
    requires StoreAgrees(env, entries, id, StableChunkSize(env, entries, id, net.latency, fallback), artifact)
    ensures var cs := StableChunkSize(env, entries, id, net.latency, fallback);
            StoreAgrees(env, StableDownloadRun(env, entries, net, id, url, fallback).entries, id, cs, artifact)
    ensures var cs := StableChunkSize(env, entries, id, net.latency, fallback);
            var after := StableDownloadRun(env, entries, net, id, url, fallback).entries;
            Reachable(env, MetadataKey(id)) ==>
              StableChunkSize(env, after, id, latency, fallback) == cs && SizeFrom(env, after, id, head) == Ok(|artifact|)
  {
    var total := |artifact|;
    var cs := StableChunkSize(env, entries, id, net.latency, fallback);
    var rec := MetadataRecord(id, url, total, CeilDiv(total, cs), cs, net.now);
    var e1 := AfterPut(env, entries, MetadataKey(id), rec);
    AgreesAfterMetadata(env, entries, id, cs, artifact, rec);
    AgreesScanCompletes(env, e1, id, cs, artifact);
    assert ScanStop(env, e1, id, cs, total, CeilDiv(total, cs), 0) == CeilDiv(total, cs);
    assert StableDownloadRun(env, entries, net, id, url, fallback) == FetchRun(env, e1, net, id, cs, total);
    FetchKeepsAgreement(env, e1, net, id, cs, artifact);
    FetchKeepsMetadata(env, e1, net, id, cs, total);
  }

  /** A corrected attempt that completes returns the artifact, when the store and the server agree with it. */
  lemma StableDownloadAssembles(env: StoreEnv, entries: map<string, Blob>, net: Network, id: string, url: string,
                                fallback: nat, artifact: seq<byte>)
    requires fallback > 0 && |artifact| > 0 && Honest(net, artifact)
    requires SizeFrom(env, entries, id, net.head) == Ok(|artifact|)
    requires StoreAgrees(env, entries, id, StableChunkSize(env, entries, id, net.latency, fallback), artifact)
    requires StableDownloadRun(env, entries, net, id, url, fallback).result.Ok?
    ensures StableDownloadRun(env, entries, net, id, url, fallback).result == Ok(artifact)
  {
    var total := |artifact|;
    var cs := StableChunkSize(env, entries, id, net.latency, fallback);
    var n := CeilDiv(total, cs);
    var rec := MetadataRecord(id, url, total, n, cs, net.now);
    var e1 := AfterPut(env, entries, MetadataKey(id), rec);
    AgreesAfterMetadata(env, entries, id, cs, artifact, rec);
    AgreesScanCompletes(env, e1, id, cs, artifact);
    assert ScanStop(env, e1, id, cs, total, n, 0) == n;
    assert StableDownloadRun(env, entries, net, id, url, fallback) == FetchRun(env, e1, net, id, cs, total);
    var ps := PendingChunks(env, e1, id, n);
    var ts := PendingTasks(env, e1, id, cs, total);
    assert FirstStop(env, net, total, ts, 0) == |ts|;
    PendingChunksFacts(env, e1, id, n);
    forall i | 0 <= i < n && !Present(env, e1, ChunkKey(id, i))
      ensures Body(net.fetchRange(ChunkSpan(i, cs, total))) == Slice(artifact, i, cs)
    {
      var j :| 0 <= j < |ps| && ps[j] == i;
      assert StepError(env, net, total, j, ts[j]).None?;
      HonestSlice(net, artifact, cs, i);
    }
    assert ConsistentChunks(env, e1, net, id, cs, artifact);
    FetchAssembles(env, e1, net, id, cs, artifact);
  }

  /**
   * Resumption with the chunk size kept: after a first attempt that ends in
   * any way, a second attempt that completes returns exactly the artifact,
   * whatever the second latency probe says.
   */
  lemma StableResume(env: StoreEnv, entries: map<string, Blob>, net1: Network, net2: Network, id: string,
                     url: string, fallback: nat, artifact: seq<byte>)
    requires fallback > 0 && |artifact| > 0
    requires Reachable(env, MetadataKey(id))
    requires SizeFrom(env, entries, id, net1.head) == Ok(|artifact|)
    requires StoreAgrees(env, entries, id, StableChunkSize(env, entries, id, net1.latency, fallback), artifact)
    requires Honest(net1, artifact) && Honest(net2, artifact)
    requires StableDownloadRun(env, StableDownloadRun(env, entries, net1, id, url, fallback).entries, net2, id, url,
                               fallback).result.Ok?
    ensures StableDownloadRun(env, StableDownloadRun(env, entries, net1, id, url, fallback).entries, net2, id, url,
                              fallback).result == Ok(artifact)
  {
    var after := StableDownloadRun(env, entries, net1, id, url, fallback).entries;
    StableKeepsAgreement(env, entries, net1, id, url, fallback, artifact, net2.latency, net2.head);
    StableDownloadAssembles(env, after, net2, id, url, fallback, artifact);
  }
}
