/**
 * What one call of each loader operation does, as a function of the store's
 * contents and environment and of the network: `downloadModelInChunks`,
 * `loadModelFromCache`, `loadModel` and `clearModelCache`. The lemmas state
 * the loader's promises: the assembled buffer is the artifact, no cached chunk
 * is fetched again, an interrupted download resumes where it stopped, a
 * completed download reloads from the store byte for byte, progress rises
 * monotonically to 1, and cancellation stops further requests.
 */
module LoadPlan {
  import opened Wrappers
  import opened Cache
  import opened ChunkPlan

  /** The loader's counters after an attempt that got past the size lookup. */
  datatype Counters = Counters(totalSize: nat, totalChunks: nat, loadedChunks: nat)

  /**
   * One call: its outcome, the callbacks it invoked in order, the Range
   * requests it issued in order, the store afterwards, and the counters
   * (`None` when they keep their previous values).
   */
  datatype Run = Run(
    result: Result<seq<byte>, LoadError>,
    events: seq<Event>,
    issued: seq<Span>,
    entries: map<string, Blob>,
    counters: Option<Counters>)

  function MetadataRecord(id: string, url: string, total: nat, n: nat, cs: nat, now: nat): Blob {
    Record(Metadata(id, url, total, n, cs, now))
  }

  /** The store after the metadata write that starts an attempt. */
  function WithMetadata(env: StoreEnv, entries: map<string, Blob>, net: Network, id: string, url: string,
                        total: nat, fallback: nat): map<string, Blob>
    requires fallback > 0
  {
    var cs := ChunkSizeFor(net.latency, fallback);
    AfterPut(env, entries, MetadataKey(id), MetadataRecord(id, url, total, CeilDiv(total, cs), cs, net.now))
  }

  lemma CachedWritesFit(env: StoreEnv, entries: map<string, Blob>, id: string, cs: nat, total: nat, stop: nat)
    requires forall i :: 0 <= i < stop ==> CachedFits(env, entries, id, cs, total, i)
    ensures AllFit(CachedWrites(entries, id, cs, CachedChunks(env, entries, id, stop)), total)
  {
    var cached := CachedChunks(env, entries, id, stop);
    var ws := CachedWrites(entries, id, cs, cached);
    CachedChunksFacts(env, entries, id, stop);
    forall k | 0 <= k < |ws| ensures Fits(ws[k], total) {
      assert CachedFits(env, entries, id, cs, total, cached[k]);
    }
  }

  lemma FetchWritesFit(env: StoreEnv, net: Network, total: nat, ts: seq<Task>, m: nat)
    requires m <= |ts|
    requires forall k :: 0 <= k < m ==> StepError(env, net, total, k, ts[k]).None?
    ensures AllFit(FetchWrites(net, ts[..m]), total)
  {
    var ws := FetchWrites(net, ts[..m]);
    forall k | 0 <= k < m ensures Fits(ws[k], total) {
      assert StepError(env, net, total, k, ts[k]).None?;
    }
  }

  /** The buffer after the scan has copied every cached chunk below `stop`. */
  function ScannedBuffer(env: StoreEnv, entries: map<string, Blob>, id: string, cs: nat, total: nat, stop: nat): seq<byte>
    requires forall i :: 0 <= i < stop ==> CachedFits(env, entries, id, cs, total, i)
  {
    CachedWritesFit(env, entries, id, cs, total, stop);
    ApplyWrites(Zeros(total), CachedWrites(entries, id, cs, CachedChunks(env, entries, id, stop)))
  }

  /** The buffer after the first `m` pending chunks have been fetched and copied too. */
  function FetchedBuffer(env: StoreEnv, net: Network, base: seq<byte>, ts: seq<Task>, m: nat): seq<byte>
    requires m <= |ts|
    requires forall k :: 0 <= k < m ==> StepError(env, net, |base|, k, ts[k]).None?
  {
    FetchWritesFit(env, net, |base|, ts, m);
    ApplyWrites(base, FetchWrites(net, ts[..m]))
  }

  /**
   * One call of `downloadModelInChunks` while no other download runs: the
   * size, the chunk size and the metadata write, then the attempt proper.
   */
  function DownloadRun(env: StoreEnv, entries: map<string, Blob>, net: Network, id: string, url: string,
                       fallback: nat): Run
    requires fallback > 0
  {
    match SizeFrom(env, entries, id, net.head)
    case Err(e) => Run(Err(e), [OnError(e)], [], entries, None)
    case Ok(total) =>
      AttemptRun(env, WithMetadata(env, entries, net, id, url, total, fallback), net, id,
                 ChunkSizeFor(net.latency, fallback), total)
  }

  /** The scan has copied every cached chunk without overflowing the buffer. */
  predicate ScanCompletes(env: StoreEnv, e1: map<string, Blob>, id: string, cs: nat, total: nat)
    requires cs > 0
  {
    forall i :: 0 <= i < CeilDiv(total, cs) ==> CachedFits(env, e1, id, cs, total, i)
  }

  /** The attempt once size, chunk size and metadata are settled: the scan of cached chunks, then the fetch phase. */
  function AttemptRun(env: StoreEnv, e1: map<string, Blob>, net: Network, id: string, cs: nat, total: nat): Run
    requires cs > 0 && total > 0
  {
    var n := CeilDiv(total, cs);
    var stop := ScanStop(env, e1, id, cs, total, n, 0);
    if stop < n then
      var loaded := |CachedChunks(env, e1, id, stop)|;
      Run(Err(BufferOverflow), ProgressRun(0, loaded, n) + [OnError(BufferOverflow)], [], e1,
          Some(Counters(total, n, loaded)))
    else
      FetchRun(env, e1, net, id, cs, total)
  }

  /** The pending chunks' Range tasks, in index order. */
  function PendingTasks(env: StoreEnv, e1: map<string, Blob>, id: string, cs: nat, total: nat): seq<Task>
    requires cs > 0 && total > 0
  {
    TasksFor(id, cs, total, PendingChunks(env, e1, id, CeilDiv(total, cs)))
  }

  /** The fetch phase: Range requests for the missing chunks until the first failure or the end. */
  function FetchRun(env: StoreEnv, e1: map<string, Blob>, net: Network, id: string, cs: nat, total: nat): Run
    requires cs > 0 && total > 0
    requires ScanCompletes(env, e1, id, cs, total)
  {
    var n := CeilDiv(total, cs);
    var ts := PendingTasks(env, e1, id, cs, total);
    FetchOutcome(env, e1, net, total, n, |CachedChunks(env, e1, id, n)|,
                 ScannedBuffer(env, e1, id, cs, total, n), ts, FirstStop(env, net, total, ts, 0))
  }

  /**
   * The fetch phase over the scan's results: `loaded` chunks already copied
   * into `base`, the Range tasks `ts` still to run, and `m`, the number of
   * them that succeed before the first failure.
   */
  function FetchOutcome(env: StoreEnv, e1: map<string, Blob>, net: Network, total: nat, n: nat, loaded: nat,
                        base: seq<byte>, ts: seq<Task>, m: nat): Run
    requires n > 0 && |base| == total && m == FirstStop(env, net, total, ts, 0)
  {
    var buf := FetchedBuffer(env, net, base, ts, m);
    var evs := ProgressRun(0, loaded + m, n);
    var e2 := SaveFetched(env, e1, net, ts[..SavedCount(env, net, total, ts, m)]);
    var c := Some(Counters(total, n, loaded + m));
    if m < |ts| then
      var e := StepError(env, net, total, m, ts[m]).value;
      Run(Err(e), evs + [OnError(e)], IssuedRequests(net, ts, m), e2, c)
    else
      Run(Ok(buf), evs + [OnComplete(buf)], IssuedRequests(net, ts, m), e2, c)
  }

  /** The fetch phase named by its parts: the pending tasks and where the first failure stops them. */
  lemma FetchRunParts(env: StoreEnv, e1: map<string, Blob>, net: Network, id: string, cs: nat, total: nat,
                      ts: seq<Task>, m: nat, loaded: nat, base: seq<byte>)
    requires cs > 0 && total > 0 && ScanCompletes(env, e1, id, cs, total)
    requires ts == PendingTasks(env, e1, id, cs, total) && m == FirstStop(env, net, total, ts, 0)
    requires loaded == |CachedChunks(env, e1, id, CeilDiv(total, cs))|
    requires base == ScannedBuffer(env, e1, id, cs, total, CeilDiv(total, cs)) && |base| == total
    ensures m < |ts| ==>
              FetchRun(env, e1, net, id, cs, total)
              == Run(Err(StepError(env, net, total, m, ts[m]).value),
                     ProgressRun(0, loaded + m, CeilDiv(total, cs)) + [OnError(StepError(env, net, total, m, ts[m]).value)],
                     IssuedRequests(net, ts, m), SaveFetched(env, e1, net, ts[..SavedCount(env, net, total, ts, m)]),
                     Some(Counters(total, CeilDiv(total, cs), loaded + m)))
    ensures m == |ts| ==>
              FetchRun(env, e1, net, id, cs, total)
              == Run(Ok(FetchedBuffer(env, net, base, ts, m)),
                     ProgressRun(0, loaded + m, CeilDiv(total, cs)) + [OnComplete(FetchedBuffer(env, net, base, ts, m))],
                     IssuedRequests(net, ts, m), SaveFetched(env, e1, net, ts[..m]),
                     Some(Counters(total, CeilDiv(total, cs), loaded + m)))
  {
    assert FetchRun(env, e1, net, id, cs, total)
           == FetchOutcome(env, e1, net, total, CeilDiv(total, cs), loaded, base, ts, m);
  }

  /**
   * The fetch phase from what the fetch loop reports: the error that stopped
   * it (if any), its progress events and requests, the stored entries and
   * the buffer it leaves.
   */
  lemma FetchRunFromLoop(env: StoreEnv, e1: map<string, Blob>, net: Network, id: string, cs: nat, total: nat,
                         ts: seq<Task>, m: nat, loaded: nat, base: seq<byte>,
                         err: Option<LoadError>, evs: seq<Event>, issued: seq<Span>, saved: map<string, Blob>, out: seq<byte>)
    requires cs > 0 && total > 0 && ScanCompletes(env, e1, id, cs, total)
    requires ts == PendingTasks(env, e1, id, cs, total) && m == FirstStop(env, net, total, ts, 0)
    requires loaded == |CachedChunks(env, e1, id, CeilDiv(total, cs))|
    requires base == ScannedBuffer(env, e1, id, cs, total, CeilDiv(total, cs)) && |base| == total
    requires err == (if m < |ts| then StepError(env, net, total, m, ts[m]) else None)
    requires evs == ProgressRun(0, loaded + m, CeilDiv(total, cs))
    requires issued == IssuedRequests(net, ts, m)
    requires saved == SaveFetched(env, e1, net, ts[..SavedCount(env, net, total, ts, m)])
    requires m == |ts| ==> out == FetchedBuffer(env, net, base, ts, m)
    ensures FetchRun(env, e1, net, id, cs, total)
            == Run(if err.Some? then Err(err.value) else Ok(out),
                   evs + [if err.Some? then OnError(err.value) else OnComplete(out)],
                   issued, saved, Some(Counters(total, CeilDiv(total, cs), loaded + m)))
  {
    FetchRunParts(env, e1, net, id, cs, total, ts, m, loaded, base);
  }

  /** With nothing to fetch, the fetch phase completes at once with the scanned buffer. */
  lemma FetchRunNoTasks(env: StoreEnv, e1: map<string, Blob>, net: Network, id: string, cs: nat, total: nat,
                        loaded: nat, base: seq<byte>)
    requires cs > 0 && total > 0 && ScanCompletes(env, e1, id, cs, total)
    requires PendingTasks(env, e1, id, cs, total) == []
    requires loaded == |CachedChunks(env, e1, id, CeilDiv(total, cs))|
    requires base == ScannedBuffer(env, e1, id, cs, total, CeilDiv(total, cs)) && |base| == total
    ensures FetchRun(env, e1, net, id, cs, total)
            == Run(Ok(base), ProgressRun(0, loaded, CeilDiv(total, cs)) + [OnComplete(base)], [], e1,
                   Some(Counters(total, CeilDiv(total, cs), loaded)))
  {
    var ts := PendingTasks(env, e1, id, cs, total);
    assert FetchWrites(net, ts[..0]) == [];
    assert IssuedRequests(net, ts, 0) == [];
    assert SaveFetched(env, e1, net, ts[..0]) == e1;
    FetchRunParts(env, e1, net, id, cs, total, ts, 0, loaded, base);
  }

  /** `loadModelFromCache`: rebuild the artifact from the metadata and the stored chunks. */
  function Reload(env: StoreEnv, entries: map<string, Blob>, id: string): Result<seq<byte>, LoadError> {
    var mv := MetadataView(env, entries, id);
    if !HasMetadata(mv) then Err(MetadataMissing)
    else
      var b := mv.value;
      var total, n, cs := SizeField(b), ChunksField(b), ChunkSizeField(b);
      var stop := ReloadStop(env, entries, id, cs, total, n, 0);
      if stop < n then Err(ReloadError(env, entries, id, cs, total, stop).value)
      else Ok(ReloadedBuffer(env, entries, id, cs, total, n))
  }

  /** The buffer after the reload has copied chunks `0 .. m-1`. */
  function ReloadedBuffer(env: StoreEnv, entries: map<string, Blob>, id: string, cs: nat, total: nat, m: nat): seq<byte>
    requires forall i :: 0 <= i < m ==> ReloadError(env, entries, id, cs, total, i).None?
  {
    ReloadWritesFit(env, entries, id, cs, total, m);
    ApplyWrites(Zeros(total), ReloadWrites(entries, id, cs, m))
  }

  lemma ReloadWritesFit(env: StoreEnv, entries: map<string, Blob>, id: string, cs: nat, total: nat, n: nat)
    requires forall i :: 0 <= i < n ==> ReloadError(env, entries, id, cs, total, i).None?
    ensures AllFit(ReloadWrites(entries, id, cs, n), total)
  {
    var ws := ReloadWrites(entries, id, cs, n);
    forall i | 0 <= i < n ensures Fits(ws[i], total) {
      assert ReloadError(env, entries, id, cs, total, i).None?;
    }
  }

  /**
   * `loadModel`: a fully cached artifact is reloaded between progress 0.5 and
   * 1; otherwise it is downloaded. Every failure is reported to `onError`
   * here as well, so a failed download reports its error twice.
   */
  function LoadRun(env: StoreEnv, entries: map<string, Blob>, net: Network, id: string, url: string,
                   fallback: nat, loading: bool): Run
    requires fallback > 0
  {
    if FullyCached(env, entries, id) then
      match Reload(env, entries, id)
      case Err(e) => Run(Err(e), [OnProgress(0.5), OnError(e)], [], entries, None)
      case Ok(d) => Run(Ok(d), [OnProgress(0.5), OnProgress(1.0), OnComplete(d)], [], entries, None)
    else if loading then
      Run(Err(AlreadyLoading), [OnError(AlreadyLoading)], [], entries, None)
    else
      var r := DownloadRun(env, entries, net, id, url, fallback);
      if r.result.Err? then r.(events := r.events + [OnError(r.result.error)]) else r
  }

  /** `clearModelCache`: whether it reports success, and the store afterwards. */
  datatype Cleared = Cleared(ok: bool, entries: map<string, Blob>)

  function ClearRun(env: StoreEnv, entries: map<string, Blob>, id: string): Cleared {
    var mv := MetadataView(env, entries, id);
    if !HasMetadata(mv) then Cleared(true, entries)
    else
      var n := ChunksField(mv.value);
      var stop := ClearStop(env, id, n, 0);
      var e1 := entries - ChunkKeysBelow(id, stop);
      if stop < n || MetadataKey(id) in env.brokenKeys then Cleared(false, e1)
      else Cleared(true, e1 - {MetadataKey(id)})
  }

  // ---------------------------------------------------------------------------
  // Lemmas
  // ---------------------------------------------------------------------------

  /**
   * The callbacks of one call are well formed: progress values, then exactly
   * one completion or error matching the result; the progress values are the
   * run `1/n, 2/n, ...` up to the chunks loaded, and a completed call has
   * loaded every chunk.
   */
  predicate EventsWellFormed(r: Run) {
    |r.events| >= 1
    && (forall k :: 0 <= k < |r.events| - 1 ==> r.events[k].OnProgress?)
    && (r.events[|r.events| - 1].OnComplete? || r.events[|r.events| - 1].OnError?)
    && (r.result.Ok? ==> r.events[|r.events| - 1] == OnComplete(r.result.value))
    && (r.result.Err? ==> r.events[|r.events| - 1] == OnError(r.result.error))
    && (r.counters.None? ==> |r.events| == 1)
    && (r.counters.Some? ==>
          r.counters.value.totalChunks > 0
          && r.counters.value.loadedChunks <= r.counters.value.totalChunks
          && r.events[..|r.events| - 1] == ProgressRun(0, r.counters.value.loadedChunks, r.counters.value.totalChunks))
    && (r.result.Ok? ==> r.counters.Some? && r.counters.value.loadedChunks == r.counters.value.totalChunks)
  }

  lemma FetchEvents(env: StoreEnv, e1: map<string, Blob>, net: Network, id: string, cs: nat, total: nat)
    requires cs > 0 && total > 0 && ScanCompletes(env, e1, id, cs, total)
    ensures EventsWellFormed(FetchRun(env, e1, net, id, cs, total))
  {
    var r := FetchRun(env, e1, net, id, cs, total);
    var n := CeilDiv(total, cs);
    var loaded := |CachedChunks(env, e1, id, n)|;
    var ts := PendingTasks(env, e1, id, cs, total);
    var m := FirstStop(env, net, total, ts, 0);
    ChunkCounts(env, e1, id, n);
    var evs := ProgressRun(0, loaded + m, n);
    assert |ts| == |PendingChunks(env, e1, id, n)|;
    if m < |ts| {
      var e := StepError(env, net, total, m, ts[m]).value;
      assert r.result == Err(e) && r.events == evs + [OnError(e)];
    } else {
      var buf := FetchedBuffer(env, net, ScannedBuffer(env, e1, id, cs, total, n), ts, m);
      assert r.result == Ok(buf) && r.events == evs + [OnComplete(buf)];
    }
    assert r.events[..|r.events| - 1] == evs;
  }

  lemma AttemptEvents(env: StoreEnv, e1: map<string, Blob>, net: Network, id: string, cs: nat, total: nat)
    requires cs > 0 && total > 0
    ensures EventsWellFormed(AttemptRun(env, e1, net, id, cs, total))
  {
    var r := AttemptRun(env, e1, net, id, cs, total);
    var n := CeilDiv(total, cs);
    var stop := ScanStop(env, e1, id, cs, total, n, 0);
    if stop < n {
      ChunkCounts(env, e1, id, stop);
      assert r.events[..|r.events| - 1] == ProgressRun(0, |CachedChunks(env, e1, id, stop)|, n);
    } else {
      FetchEvents(env, e1, net, id, cs, total);
    }
  }

  /** The callbacks of `downloadModelInChunks` are well formed. */
  lemma DownloadEvents(env: StoreEnv, entries: map<string, Blob>, net: Network, id: string, url: string, fallback: nat)
    requires fallback > 0
    ensures EventsWellFormed(DownloadRun(env, entries, net, id, url, fallback))
  {
    match SizeFrom(env, entries, id, net.head)
    case Err(e) =>
    case Ok(total) =>
      AttemptEvents(env, WithMetadata(env, entries, net, id, url, total, fallback), net, id,
                    ChunkSizeFor(net.latency, fallback), total);
  }

  /** In a well-formed run, the progress fractions strictly increase, stay in (0, 1], and a success ends at 1. */
  lemma ProgressOfWellFormed(r: Run)
    requires EventsWellFormed(r)
    ensures forall a, b :: 0 <= a < b < |r.events| - 1 ==> r.events[a].fraction < r.events[b].fraction
    ensures forall k :: 0 <= k < |r.events| - 1 ==> 0.0 < r.events[k].fraction <= 1.0
    ensures r.result.Ok? && |r.events| >= 2 ==> r.events[|r.events| - 2] == OnProgress(1.0)
  {
    if r.counters.Some? {
      var c := r.counters.value;
      ProgressMonotone(c.loadedChunks, c.totalChunks);
      var pr := ProgressRun(0, c.loadedChunks, c.totalChunks);
      assert forall k :: 0 <= k < |r.events| - 1 ==> r.events[k] == pr[k];
      if r.result.Ok? && |r.events| >= 2 {
        FractionLess(0, c.totalChunks, c.totalChunks);
      }
    }
  }

  /** Progress reported during a download strictly increases and stays in (0, 1]; a completed download ends at 1. */
  lemma DownloadProgressMonotone(env: StoreEnv, entries: map<string, Blob>, net: Network, id: string, url: string, fallback: nat)
    requires fallback > 0
    ensures var r := DownloadRun(env, entries, net, id, url, fallback);
            EventsWellFormed(r)
            && (forall a, b :: 0 <= a < b < |r.events| - 1 ==> r.events[a].fraction < r.events[b].fraction)
            && (forall k :: 0 <= k < |r.events| - 1 ==> 0.0 < r.events[k].fraction <= 1.0)
            && (r.result.Ok? && |r.events| >= 2 ==> r.events[|r.events| - 2] == OnProgress(1.0))
  {
    DownloadEvents(env, entries, net, id, url, fallback);
    ProgressOfWellFormed(DownloadRun(env, entries, net, id, url, fallback));
  }

  lemma FetchIssuedPending(env: StoreEnv, e1: map<string, Blob>, net: Network, id: string, cs: nat, total: nat, q: nat)
    requires cs > 0 && total > 0 && ScanCompletes(env, e1, id, cs, total)
    requires q < |FetchRun(env, e1, net, id, cs, total).issued|
    ensures var ps := PendingChunks(env, e1, id, CeilDiv(total, cs));
            q < |ps| && FetchRun(env, e1, net, id, cs, total).issued[q] == ChunkSpan(ps[q], cs, total)
  {
    var ts := PendingTasks(env, e1, id, cs, total);
    var m := FirstStop(env, net, total, ts, 0);
    var issued := IssuedRequests(net, ts, m);
    if q < m {
      assert issued[q] == Spans(ts[..m])[q];
    }
  }

  /** Every Range request asks for the range of a chunk that was not cached when the scan ran. */
  lemma IssuedOnlyPending(env: StoreEnv, entries: map<string, Blob>, net: Network, id: string, url: string,
                          fallback: nat, total: nat, q: nat)
    requires fallback > 0
    requires SizeFrom(env, entries, id, net.head) == Ok(total)
    requires q < |DownloadRun(env, entries, net, id, url, fallback).issued|
    ensures var cs := ChunkSizeFor(net.latency, fallback);
            var ps := PendingChunks(env, WithMetadata(env, entries, net, id, url, total, fallback), id, CeilDiv(total, cs));
            q < |ps| && DownloadRun(env, entries, net, id, url, fallback).issued[q] == ChunkSpan(ps[q], cs, total)
  {
    var cs := ChunkSizeFor(net.latency, fallback);
    var e1 := WithMetadata(env, entries, net, id, url, total, fallback);
    var n := CeilDiv(total, cs);
    if ScanStop(env, e1, id, cs, total, n, 0) == n {
      FetchIssuedPending(env, e1, net, id, cs, total, q);
    }
  }

  /**
   * A download that completes issues exactly one Range request per chunk
   * that was not cached: `totalChunks - cachedCount` of them.
   */
  lemma SuccessRequestCount(env: StoreEnv, entries: map<string, Blob>, net: Network, id: string, url: string,
                            fallback: nat, total: nat)
    requires fallback > 0
    requires SizeFrom(env, entries, id, net.head) == Ok(total)
    requires DownloadRun(env, entries, net, id, url, fallback).result.Ok?
    ensures var cs := ChunkSizeFor(net.latency, fallback);
            var n := CeilDiv(total, cs);
            var e1 := WithMetadata(env, entries, net, id, url, total, fallback);
            |DownloadRun(env, entries, net, id, url, fallback).issued| == n - |CachedChunks(env, e1, id, n)|
  {
    var cs := ChunkSizeFor(net.latency, fallback);
    var e1 := WithMetadata(env, entries, net, id, url, total, fallback);
    var n := CeilDiv(total, cs);
    ChunkCounts(env, e1, id, n);
    if total > 0 && ScanStop(env, e1, id, cs, total, n, 0) == n {
      var ts := PendingTasks(env, e1, id, cs, total);
      var m := FirstStop(env, net, total, ts, 0);
      assert m == |ts| && ts[..m] == ts;
    }
  }

  /** When every chunk is already cached, a download issues no Range request at all. */
  lemma AllCachedNoRequests(env: StoreEnv, entries: map<string, Blob>, net: Network, id: string, url: string,
                            fallback: nat, total: nat)
    requires fallback > 0
    requires SizeFrom(env, entries, id, net.head) == Ok(total)
    requires forall i :: 0 <= i < CeilDiv(total, ChunkSizeFor(net.latency, fallback)) ==>
               Present(env, entries, ChunkKey(id, i))
    ensures DownloadRun(env, entries, net, id, url, fallback).issued == []
  {
    var cs := ChunkSizeFor(net.latency, fallback);
    var n := CeilDiv(total, cs);
    var e1 := WithMetadata(env, entries, net, id, url, total, fallback);
    forall i | 0 <= i < n ensures Present(env, e1, ChunkKey(id, i)) {
      ChunkKeyNotMetadataKey(id, i);
    }
    var ps := PendingChunks(env, e1, id, n);
    assert |ps| == 0 by {
      ChunkCounts(env, e1, id, n);
      CachedAll(env, e1, id, n);
    }
  }

  /** When every chunk below `n` is cached, all `n` are listed as cached. */
  lemma {:induction false} CachedAll(env: StoreEnv, entries: map<string, Blob>, id: string, n: nat)
    requires forall i :: 0 <= i < n ==> Present(env, entries, ChunkKey(id, i))
    ensures |CachedChunks(env, entries, id, n)| == n
  {
    if n > 0 {
      CachedAll(env, entries, id, n - 1);
    }
  }

  lemma FetchCancel(env: StoreEnv, e1: map<string, Blob>, net: Network, id: string, cs: nat, total: nat, k: nat)
    requires cs > 0 && total > 0 && ScanCompletes(env, e1, id, cs, total)
    requires net.cancelBefore == Some(k)
    ensures |FetchRun(env, e1, net, id, cs, total).issued| <= k
  {
    var ts := PendingTasks(env, e1, id, cs, total);
    var m := FirstStop(env, net, total, ts, 0);
    assert m <= k by {
      if k < |ts| {
        FirstStopAtMost(env, net, total, ts, k);
      }
    }
  }

  /** Search stops no later than a task known to fail. */
  lemma FirstStopAtMost(env: StoreEnv, net: Network, total: nat, ts: seq<Task>, k: nat)
    requires k < |ts| && StepError(env, net, total, k, ts[k]).Some?
    ensures FirstStop(env, net, total, ts, 0) <= k
  {
  }

  /** After `cancelDownload` takes effect before pending chunk `k`, no more than `k` Range requests were issued. */
  lemma CancelStopsRequests(env: StoreEnv, entries: map<string, Blob>, net: Network, id: string, url: string,
                            fallback: nat, k: nat)
    requires fallback > 0 && net.cancelBefore == Some(k)
    ensures |DownloadRun(env, entries, net, id, url, fallback).issued| <= k
  {
    match SizeFrom(env, entries, id, net.head)
    case Err(e) =>
    case Ok(total) =>
      var cs := ChunkSizeFor(net.latency, fallback);
      var e1 := WithMetadata(env, entries, net, id, url, total, fallback);
      if ScanStop(env, e1, id, cs, total, CeilDiv(total, cs), 0) == CeilDiv(total, cs) {
        FetchCancel(env, e1, net, id, cs, total, k);
      }
  }

  /**
   * Cancelling between two chunks: when `cancelDownload` takes effect before
   * pending chunk `k` and the chunks before it were fetched, the download
   * rejects as cancelled (not as a network failure), reports that error last,
   * and every chunk fetched before the cancel stays stored under its key.
   */
  lemma CancelKeepsFetchedChunks(env: StoreEnv, entries: map<string, Blob>, net: Network, id: string, url: string,
                                 fallback: nat, total: nat, k: nat)
    requires fallback > 0 && net.cancelBefore == Some(k)
    requires SizeFrom(env, entries, id, net.head) == Ok(total)
    requires ScanCompletes(env, WithMetadata(env, entries, net, id, url, total, fallback), id, ChunkSizeFor(net.latency, fallback), total)
    requires k < |PendingTasks(env, WithMetadata(env, entries, net, id, url, total, fallback), id, ChunkSizeFor(net.latency, fallback), total)|
    requires forall j :: 0 <= j < k ==>
               StepError(env, net, total, j,
                         PendingTasks(env, WithMetadata(env, entries, net, id, url, total, fallback), id,
                                      ChunkSizeFor(net.latency, fallback), total)[j]).None?
    ensures var r := DownloadRun(env, entries, net, id, url, fallback);
            r.result == Err(Cancelled) && |r.events| > 0 && r.events[|r.events| - 1] == OnError(Cancelled)
    ensures var ts := PendingTasks(env, WithMetadata(env, entries, net, id, url, total, fallback), id,
                                   ChunkSizeFor(net.latency, fallback), total);
            var after := DownloadRun(env, entries, net, id, url, fallback).entries;
            forall j :: 0 <= j < k && Reachable(env, ts[j].key) ==>
              ts[j].key in after && after[ts[j].key] == Bytes(Body(net.fetchRange(ts[j].span)))
  {
    var cs := ChunkSizeFor(net.latency, fallback);
    var e1 := WithMetadata(env, entries, net, id, url, total, fallback);
    var ts := PendingTasks(env, e1, id, cs, total);
    FirstStopSkip(env, net, total, ts, k);
    assert FirstStop(env, net, total, ts, 0) == k;
    var r := DownloadRun(env, entries, net, id, url, fallback);
    assert r == FetchRun(env, e1, net, id, cs, total);
    forall j | 0 <= j < k && Reachable(env, ts[j].key)
      ensures ts[j].key in r.entries && r.entries[ts[j].key] == Bytes(Body(net.fetchRange(ts[j].span)))
    {
      FetchStores(env, e1, net, id, cs, total, j);
    }
  }

  /** The fetch phase only writes chunk keys: every key survives, and a key that is no chunk key keeps its value. */
  lemma FetchKeepsKeys(env: StoreEnv, e1: map<string, Blob>, net: Network, id: string, cs: nat, total: nat, key: string)
    requires cs > 0 && total > 0 && ScanCompletes(env, e1, id, cs, total)
    ensures key in e1 ==> key in FetchRun(env, e1, net, id, cs, total).entries
    ensures key in e1 && (forall i: nat :: key != ChunkKey(id, i)) ==>
              FetchRun(env, e1, net, id, cs, total).entries[key] == e1[key]
  {
    var ps := PendingChunks(env, e1, id, CeilDiv(total, cs));
    var ts := PendingTasks(env, e1, id, cs, total);
    var m := FirstStop(env, net, total, ts, 0);
    var saved := ts[..SavedCount(env, net, total, ts, m)];
    assert FetchRun(env, e1, net, id, cs, total).entries == SaveFetched(env, e1, net, saved);
    assert forall k :: 0 <= k < |saved| ==> saved[k].key == ChunkKey(id, ps[k]);
    SaveFetchedKeeps(env, e1, net, saved, key);
  }

  /**
   * A download never deletes: every key stored before it is stored after it,
   * and a key that is neither the metadata key nor one of the model's chunk
   * keys keeps its value, whether the download completes or fails.
   */
  lemma DownloadKeepsKeys(env: StoreEnv, entries: map<string, Blob>, net: Network, id: string, url: string,
                          fallback: nat, key: string)
    requires fallback > 0
    ensures key in entries ==> key in DownloadRun(env, entries, net, id, url, fallback).entries
    ensures key in entries && key != MetadataKey(id) && (forall i: nat :: key != ChunkKey(id, i)) ==>
              DownloadRun(env, entries, net, id, url, fallback).entries[key] == entries[key]
  {
    match SizeFrom(env, entries, id, net.head)
    case Err(e) =>
    case Ok(total) =>
      var cs := ChunkSizeFor(net.latency, fallback);
      var e1 := WithMetadata(env, entries, net, id, url, total, fallback);
      var n := CeilDiv(total, cs);
      if ScanStop(env, e1, id, cs, total, n, 0) == n {
        FetchKeepsKeys(env, e1, net, id, cs, total, key);
      }
  }

  lemma FetchKeepsMetadata(env: StoreEnv, e1: map<string, Blob>, net: Network, id: string, cs: nat, total: nat)
    requires cs > 0 && total > 0 && ScanCompletes(env, e1, id, cs, total)
    ensures MetadataView(env, FetchRun(env, e1, net, id, cs, total).entries, id) == MetadataView(env, e1, id)
  {
    var ps := PendingChunks(env, e1, id, CeilDiv(total, cs));
    var ts := PendingTasks(env, e1, id, cs, total);
    var m := FirstStop(env, net, total, ts, 0);
    var saved := ts[..SavedCount(env, net, total, ts, m)];
    forall k | 0 <= k < |saved| ensures saved[k].key != MetadataKey(id) {
      ChunkKeyNotMetadataKey(id, ps[k]);
    }
    SaveFetchedKeeps(env, e1, net, saved, MetadataKey(id));
  }

  /** An attempt that got its size records the artifact's metadata in the store, whatever happens afterwards. */
  lemma MetadataRecorded(env: StoreEnv, entries: map<string, Blob>, net: Network, id: string, url: string,
                         fallback: nat, total: nat)
    requires fallback > 0
    requires SizeFrom(env, entries, id, net.head) == Ok(total)
    requires Reachable(env, MetadataKey(id))
    ensures var cs := ChunkSizeFor(net.latency, fallback);
            var r := DownloadRun(env, entries, net, id, url, fallback);
            MetadataView(env, r.entries, id) == Some(MetadataRecord(id, url, total, CeilDiv(total, cs), cs, net.now))
            && r.counters.Some? && r.counters.value.totalSize == total
            && r.counters.value.totalChunks == CeilDiv(total, cs)
  {
    var cs := ChunkSizeFor(net.latency, fallback);
    var e1 := WithMetadata(env, entries, net, id, url, total, fallback);
    if ScanStop(env, e1, id, cs, total, CeilDiv(total, cs), 0) == CeilDiv(total, cs) {
      FetchKeepsMetadata(env, e1, net, id, cs, total);
    }
  }

  /** The value `SaveFetched` leaves under a task's key when no other task shares it. */
  lemma {:induction false} SaveFetchedAt(env: StoreEnv, entries: map<string, Blob>, net: Network, ts: seq<Task>, j: nat)
    requires j < |ts| && Reachable(env, ts[j].key)
    requires forall k :: 0 <= k < |ts| && k != j ==> ts[k].key != ts[j].key
    ensures ts[j].key in SaveFetched(env, entries, net, ts)
    ensures SaveFetched(env, entries, net, ts)[ts[j].key] == Bytes(Body(net.fetchRange(ts[j].span)))
    decreases |ts|
  {
    if j < |ts| - 1 {
      SaveFetchedAt(env, entries, net, ts[..|ts| - 1], j);
    }
  }

  /** The fetch phase stores each chunk it fetched successfully under its own key. */
  lemma FetchStores(env: StoreEnv, e1: map<string, Blob>, net: Network, id: string, cs: nat, total: nat, j: nat)
    requires cs > 0 && total > 0 && ScanCompletes(env, e1, id, cs, total)
    requires j < FirstStop(env, net, total, PendingTasks(env, e1, id, cs, total), 0)
    requires Reachable(env, PendingTasks(env, e1, id, cs, total)[j].key)
    ensures var t := PendingTasks(env, e1, id, cs, total)[j];
            t.key in FetchRun(env, e1, net, id, cs, total).entries
            && FetchRun(env, e1, net, id, cs, total).entries[t.key] == Bytes(Body(net.fetchRange(t.span)))
  {
    var ps := PendingChunks(env, e1, id, CeilDiv(total, cs));
    var ts := PendingTasks(env, e1, id, cs, total);
    var m := FirstStop(env, net, total, ts, 0);
    var saved := ts[..SavedCount(env, net, total, ts, m)];
    PendingChunksFacts(env, e1, id, CeilDiv(total, cs));
    StrictlyIncreasingDistinct(ps);
    forall k | 0 <= k < |saved| && k != j ensures saved[k].key != saved[j].key {
      ChunkKeysDistinct(id, ps[k], ps[j]);
    }
    SaveFetchedAt(env, e1, net, saved, j);
  }

  /**
   * Resumption: a chunk fetched before an attempt stopped is in the store
   * afterwards (when its key is writable), so an attempt that cuts the
   * artifact the same way does not fetch it again.
   */
  lemma FetchedChunksNotPendingAgain(env: StoreEnv, entries: map<string, Blob>, net: Network, id: string, url: string,
                                     fallback: nat, total: nat, j: nat)
    requires fallback > 0
    requires SizeFrom(env, entries, id, net.head) == Ok(total)
    requires ScanCompletes(env, WithMetadata(env, entries, net, id, url, total, fallback), id, ChunkSizeFor(net.latency, fallback), total)
    requires j < FirstStop(env, net, total, PendingTasks(env, WithMetadata(env, entries, net, id, url, total, fallback), id,
                                                         ChunkSizeFor(net.latency, fallback), total), 0)
    requires Reachable(env, PendingTasks(env, WithMetadata(env, entries, net, id, url, total, fallback), id,
                                         ChunkSizeFor(net.latency, fallback), total)[j].key)
    ensures var cs := ChunkSizeFor(net.latency, fallback);
            var i := PendingChunks(env, WithMetadata(env, entries, net, id, url, total, fallback), id, CeilDiv(total, cs))[j];
            var after := DownloadRun(env, entries, net, id, url, fallback).entries;
            Present(env, after, ChunkKey(id, i)) && i !in PendingChunks(env, after, id, CeilDiv(total, cs))
  {
    var cs := ChunkSizeFor(net.latency, fallback);
    var e1 := WithMetadata(env, entries, net, id, url, total, fallback);
    var n := CeilDiv(total, cs);
    var i := PendingChunks(env, e1, id, n)[j];
    FetchStores(env, e1, net, id, cs, total, j);
    var after := DownloadRun(env, entries, net, id, url, fallback).entries;
    assert after == FetchRun(env, e1, net, id, cs, total).entries;
    PendingChunksFacts(env, after, id, n);
  }

  // ---------------------------------------------------------------------------
  // Assembly: consistent chunks rebuild the artifact
  // ---------------------------------------------------------------------------

  /** The bytes of the artifact that chunk `i` stands for. */
  function Slice(artifact: seq<byte>, i: nat, cs: nat): seq<byte>
    requires |artifact| > 0 && cs > 0 && i < CeilDiv(|artifact|, cs)
  {
    SpanInside(|artifact|, cs, i);
    artifact[ChunkSpan(i, cs, |artifact|).start .. ChunkSpan(i, cs, |artifact|).end + 1]
  }

  /**
   * The store and the server agree with `artifact`: each cached chunk holds,
   * and each Range request for a missing chunk returns, exactly that chunk's
   * bytes.
   */
  predicate ConsistentChunks(env: StoreEnv, entries: map<string, Blob>, net: Network, id: string, cs: nat, artifact: seq<byte>)
    requires |artifact| > 0 && cs > 0
  {
    forall i :: 0 <= i < CeilDiv(|artifact|, cs) ==>
      (Present(env, entries, ChunkKey(id, i)) ==> StoredBytes(entries, ChunkKey(id, i)) == Slice(artifact, i, cs))
      && (!Present(env, entries, ChunkKey(id, i)) ==>
            Body(net.fetchRange(ChunkSpan(i, cs, |artifact|))) == Slice(artifact, i, cs))
  }

  /**
   * `ws[k]` puts the bytes of chunk `idx[k]` at that chunk's offset, and every
   * chunk below `totalChunks` is written exactly once.
   */
  predicate TiledBy(artifact: seq<byte>, cs: nat, ws: seq<Write>, idx: seq<nat>)
    requires |artifact| > 0 && cs > 0
  {
    |ws| == |idx|
    && (forall k :: 0 <= k < |idx| ==>
          idx[k] < CeilDiv(|artifact|, cs)
          && ws[k] == Write(ChunkSpan(idx[k], cs, |artifact|).start, Slice(artifact, idx[k], cs)))
    && (forall a, b :: 0 <= a < |idx| && 0 <= b < |idx| && a != b ==> idx[a] != idx[b])
    && (forall i :: 0 <= i < CeilDiv(|artifact|, cs) ==> i in idx)
  }

  lemma TiledFits(artifact: seq<byte>, cs: nat, ws: seq<Write>, idx: seq<nat>)
    requires |artifact| > 0 && cs > 0 && TiledBy(artifact, cs, ws, idx)
    ensures AllFit(ws, |artifact|)
  {
    forall k | 0 <= k < |ws| ensures Fits(ws[k], |artifact|) {
      SpanInside(|artifact|, cs, idx[k]);
    }
  }

  lemma TiledAt(artifact: seq<byte>, cs: nat, ws: seq<Write>, idx: seq<nat>, p: nat)
    requires |artifact| > 0 && cs > 0 && TiledBy(artifact, cs, ws, idx) && AllFit(ws, |artifact|)
    requires p < |artifact|
    ensures ApplyWrites(Zeros(|artifact|), ws)[p] == artifact[p]
  {
    var total := |artifact|;
    var c := ChunkOf(total, cs, p);
    assert c in idx;
    var j :| 0 <= j < |idx| && idx[j] == c;
    forall k | 0 <= k < |ws| && k != j ensures !Covers(ws[k], p) {
      SpanInside(total, cs, idx[k]);
    }
    SpanInside(total, cs, c);
    ApplyWritesAt(Zeros(total), ws, p, j);
    SliceAt(artifact, cs, c, p);
  }

  /** Writes that put each chunk's bytes at its offset, once per chunk, rebuild the artifact from a zeroed buffer. */
  lemma Assemble(artifact: seq<byte>, cs: nat, ws: seq<Write>, idx: seq<nat>)
    requires |artifact| > 0 && cs > 0 && TiledBy(artifact, cs, ws, idx)
    ensures AllFit(ws, |artifact|)
    ensures ApplyWrites(Zeros(|artifact|), ws) == artifact
  {
    TiledFits(artifact, cs, ws, idx);
    forall p | 0 <= p < |artifact| ensures ApplyWrites(Zeros(|artifact|), ws)[p] == artifact[p] {
      TiledAt(artifact, cs, ws, idx, p);
    }
  }

  lemma SliceAt(artifact: seq<byte>, cs: nat, i: nat, p: nat)
    requires |artifact| > 0 && cs > 0 && i < CeilDiv(|artifact|, cs)
    requires ChunkSpan(i, cs, |artifact|).start <= p <= ChunkSpan(i, cs, |artifact|).end
    ensures Slice(artifact, i, cs)[p - ChunkSpan(i, cs, |artifact|).start] == artifact[p]
  {
    SpanInside(|artifact|, cs, i);
  }

  /** Chunk bytes stored under chunk keys are unaffected by the metadata write. */
  lemma MetadataWriteKeepsChunks(env: StoreEnv, entries: map<string, Blob>, net: Network, id: string, url: string,
                                 total: nat, fallback: nat, i: nat)
    requires fallback > 0
    ensures var e1 := WithMetadata(env, entries, net, id, url, total, fallback);
            (Present(env, e1, ChunkKey(id, i)) <==> Present(env, entries, ChunkKey(id, i)))
            && StoredBytes(e1, ChunkKey(id, i)) == StoredBytes(entries, ChunkKey(id, i))
  {
    ChunkKeyNotMetadataKey(id, i);
  }

  lemma StrictlyIncreasingDistinct(s: seq<nat>)
    requires forall a, b :: 0 <= a < b < |s| ==> s[a] < s[b]
    ensures forall a, b :: 0 <= a < |s| && 0 <= b < |s| && a != b ==> s[a] != s[b]
  {
    forall a, b | 0 <= a < |s| && 0 <= b < |s| && a != b ensures s[a] != s[b] {
      if a < b { } else { }
    }
  }

  /** The metadata write leaves the chunks' agreement with the artifact as it was. */
  lemma ConsistentAfterMetadata(env: StoreEnv, entries: map<string, Blob>, net: Network, id: string, url: string,
                                fallback: nat, artifact: seq<byte>)
    requires fallback > 0 && |artifact| > 0
    requires ConsistentChunks(env, entries, net, id, ChunkSizeFor(net.latency, fallback), artifact)
    ensures ConsistentChunks(env, WithMetadata(env, entries, net, id, url, |artifact|, fallback), net, id,
                             ChunkSizeFor(net.latency, fallback), artifact)
  {
    forall i | 0 <= i < CeilDiv(|artifact|, ChunkSizeFor(net.latency, fallback)) {
      MetadataWriteKeepsChunks(env, entries, net, id, url, |artifact|, fallback, i);
    }
  }

  /** Consistent chunks have exactly their range's length, so the scan never overflows. */
  lemma ConsistentScanCompletes(env: StoreEnv, e1: map<string, Blob>, net: Network, id: string, cs: nat, artifact: seq<byte>)
    requires cs > 0 && |artifact| > 0 && ConsistentChunks(env, e1, net, id, cs, artifact)
    ensures ScanCompletes(env, e1, id, cs, |artifact|)
  {
    forall i | 0 <= i < CeilDiv(|artifact|, cs) ensures CachedFits(env, e1, id, cs, |artifact|, i) {
      SpanInside(|artifact|, cs, i);
    }
  }

  /** Each cached or fetched write puts the artifact's slice at its chunk's start. */
  lemma FetchWritesMatch(env: StoreEnv, e1: map<string, Blob>, net: Network, id: string, cs: nat, artifact: seq<byte>)
    requires cs > 0 && |artifact| > 0 && ConsistentChunks(env, e1, net, id, cs, artifact)
    ensures var n := CeilDiv(|artifact|, cs);
            var idx := CachedChunks(env, e1, id, n) + PendingChunks(env, e1, id, n);
            var ws := CachedWrites(e1, id, cs, CachedChunks(env, e1, id, n))
                      + FetchWrites(net, PendingTasks(env, e1, id, cs, |artifact|));
            |ws| == |idx|
            && forall k :: 0 <= k < |idx| ==>
                 idx[k] < n && ws[k] == Write(ChunkSpan(idx[k], cs, |artifact|).start, Slice(artifact, idx[k], cs))
  {
    var total := |artifact|;
    var n := CeilDiv(total, cs);
    var cached := CachedChunks(env, e1, id, n);
    var ps := PendingChunks(env, e1, id, n);
    var ts := PendingTasks(env, e1, id, cs, total);
    var cw := CachedWrites(e1, id, cs, cached);
    var fw := FetchWrites(net, ts);
    CachedChunksFacts(env, e1, id, n);
    PendingChunksFacts(env, e1, id, n);
    forall k | 0 <= k < |cached| ensures
      cached[k] < n && cw[k] == Write(ChunkSpan(cached[k], cs, total).start, Slice(artifact, cached[k], cs))
    {
    }
    forall k | 0 <= k < |ps| ensures
      ps[k] < n && fw[k] == Write(ChunkSpan(ps[k], cs, total).start, Slice(artifact, ps[k], cs))
    {
      assert fw[k] == FetchWrite(net, ts[k]);
    }
  }

  /** No chunk is both cached and pending, and together they are every chunk. */
  lemma CachedPendingPartition(env: StoreEnv, e1: map<string, Blob>, id: string, n: nat)
    ensures var idx := CachedChunks(env, e1, id, n) + PendingChunks(env, e1, id, n);
            (forall a, b :: 0 <= a < |idx| && 0 <= b < |idx| && a != b ==> idx[a] != idx[b])
            && (forall i :: 0 <= i < n ==> i in idx)
  {
    var cached := CachedChunks(env, e1, id, n);
    var ps := PendingChunks(env, e1, id, n);
    var idx := cached + ps;
    CachedChunksFacts(env, e1, id, n);
    PendingChunksFacts(env, e1, id, n);
    StrictlyIncreasingDistinct(cached);
    StrictlyIncreasingDistinct(ps);
    forall a, b | 0 <= a < |idx| && 0 <= b < |idx| && a != b ensures idx[a] != idx[b] {
      if a < |cached| && b >= |cached| {
        assert Present(env, e1, ChunkKey(id, idx[a])) && !Present(env, e1, ChunkKey(id, idx[b]));
      } else if a >= |cached| && b < |cached| {
        assert !Present(env, e1, ChunkKey(id, idx[a])) && Present(env, e1, ChunkKey(id, idx[b]));
      } else if a < |cached| {
        assert idx[a] == cached[a] && idx[b] == cached[b];
      } else {
        assert idx[a] == ps[a - |cached|] && idx[b] == ps[b - |cached|];
      }
    }
    forall i | 0 <= i < n ensures i in idx {
      if Present(env, e1, ChunkKey(id, i)) { assert i in cached; } else { assert i in ps; }
    }
  }

  /** The cached writes followed by the fetched writes tile the artifact. */
  lemma FetchTiles(env: StoreEnv, e1: map<string, Blob>, net: Network, id: string, cs: nat, artifact: seq<byte>)
    requires cs > 0 && |artifact| > 0 && ConsistentChunks(env, e1, net, id, cs, artifact)
    ensures var n := CeilDiv(|artifact|, cs);
            TiledBy(artifact, cs,
                    CachedWrites(e1, id, cs, CachedChunks(env, e1, id, n))
                    + FetchWrites(net, PendingTasks(env, e1, id, cs, |artifact|)),
                    CachedChunks(env, e1, id, n) + PendingChunks(env, e1, id, n))
  {
    FetchWritesMatch(env, e1, net, id, cs, artifact);
    CachedPendingPartition(env, e1, id, CeilDiv(|artifact|, cs));
  }

  lemma FetchAssembles(env: StoreEnv, e1: map<string, Blob>, net: Network, id: string, cs: nat, artifact: seq<byte>)
    requires cs > 0 && |artifact| > 0 && ConsistentChunks(env, e1, net, id, cs, artifact)
    requires ScanCompletes(env, e1, id, cs, |artifact|)
    requires FetchRun(env, e1, net, id, cs, |artifact|).result.Ok?
    ensures FetchRun(env, e1, net, id, cs, |artifact|).result == Ok(artifact)
  {
    var total := |artifact|;
    var n := CeilDiv(total, cs);
    var cached := CachedChunks(env, e1, id, n);
    var ts := PendingTasks(env, e1, id, cs, total);
    var m := FirstStop(env, net, total, ts, 0);
    assert m == |ts| && ts[..m] == ts;
    var cw := CachedWrites(e1, id, cs, cached);
    var fw := FetchWrites(net, ts);
    CachedWritesFit(env, e1, id, cs, total, n);
    FetchWritesFit(env, net, total, ts, m);
    ApplyWritesAppend(Zeros(total), cw, fw);
    FetchTiles(env, e1, net, id, cs, artifact);
    Assemble(artifact, cs, cw + fw, cached + PendingChunks(env, e1, id, n));
  }

  /**
   * When the store and the server agree with `artifact`, a download that
   * completes returns exactly the artifact.
   */
  lemma DownloadAssembles(env: StoreEnv, entries: map<string, Blob>, net: Network, id: string, url: string,
                          fallback: nat, artifact: seq<byte>)
    requires fallback > 0
    requires SizeFrom(env, entries, id, net.head) == Ok(|artifact|)
    requires ConsistentChunks(env, entries, net, id, ChunkSizeFor(net.latency, fallback), artifact)
    requires DownloadRun(env, entries, net, id, url, fallback).result.Ok?
    ensures DownloadRun(env, entries, net, id, url, fallback).result == Ok(artifact)
  {
    var cs := ChunkSizeFor(net.latency, fallback);
    var e1 := WithMetadata(env, entries, net, id, url, |artifact|, fallback);
    ConsistentAfterMetadata(env, entries, net, id, url, fallback, artifact);
    ConsistentScanCompletes(env, e1, net, id, cs, artifact);
    FetchAssembles(env, e1, net, id, cs, artifact);
  }

  /** What a completed fetch phase leaves under one chunk key. */
  lemma FetchStoredChunk(env: StoreEnv, e1: map<string, Blob>, net: Network, id: string, cs: nat, artifact: seq<byte>, i: nat)
    requires cs > 0 && |artifact| > 0 && ConsistentChunks(env, e1, net, id, cs, artifact)
    requires ScanCompletes(env, e1, id, cs, |artifact|)
    requires FetchRun(env, e1, net, id, cs, |artifact|).result.Ok?
    requires i < CeilDiv(|artifact|, cs) && Reachable(env, ChunkKey(id, i))
    ensures var e2 := FetchRun(env, e1, net, id, cs, |artifact|).entries;
            ChunkKey(id, i) in e2 && Truthy(e2[ChunkKey(id, i)]) && StoredBytes(e2, ChunkKey(id, i)) == Slice(artifact, i, cs)
  {
    var total := |artifact|;
    var n := CeilDiv(total, cs);
    var ps := PendingChunks(env, e1, id, n);
    var ts := PendingTasks(env, e1, id, cs, total);
    var m := FirstStop(env, net, total, ts, 0);
    assert m == |ts| && SavedCount(env, net, total, ts, m) == m && ts[..m] == ts;
    var key := ChunkKey(id, i);
    PendingChunksFacts(env, e1, id, n);
    if Present(env, e1, key) {
      forall k | 0 <= k < |ts| ensures ts[k].key != key {
        ChunkKeysDistinct(id, ps[k], i);
      }
      SaveFetchedKeeps(env, e1, net, ts, key);
    } else {
      assert i in ps;
      var j :| 0 <= j < |ps| && ps[j] == i;
      FetchStores(env, e1, net, id, cs, total, j);
    }
  }

  lemma FetchThenReload(env: StoreEnv, e1: map<string, Blob>, net: Network, id: string, url: string, cs: nat,
                        artifact: seq<byte>)
    requires cs > 0 && |artifact| > 0 && ConsistentChunks(env, e1, net, id, cs, artifact)
    requires ScanCompletes(env, e1, id, cs, |artifact|)
    requires FetchRun(env, e1, net, id, cs, |artifact|).result.Ok?
    requires MetadataView(env, e1, id) == Some(MetadataRecord(id, url, |artifact|, CeilDiv(|artifact|, cs), cs, net.now))
    requires forall i :: 0 <= i < CeilDiv(|artifact|, cs) ==> Reachable(env, ChunkKey(id, i))
    ensures FullyCached(env, FetchRun(env, e1, net, id, cs, |artifact|).entries, id)
    ensures Reload(env, FetchRun(env, e1, net, id, cs, |artifact|).entries, id) == Ok(artifact)
  {
    var total := |artifact|;
    var n := CeilDiv(total, cs);
    var e2 := FetchRun(env, e1, net, id, cs, total).entries;
    FetchKeepsMetadata(env, e1, net, id, cs, total);
    forall i | 0 <= i < n ensures ChunkKey(id, i) in e2 && Truthy(e2[ChunkKey(id, i)])
                                  && StoredBytes(e2, ChunkKey(id, i)) == Slice(artifact, i, cs)
    {
      FetchStoredChunk(env, e1, net, id, cs, artifact, i);
    }
    ReloadAssembles(env, e2, id, cs, artifact);
  }

  /**
   * A reload rebuilds `artifact` when the metadata describes it and every
   * chunk it names is stored, readable and holds its slice of the artifact.
   */
  lemma ReloadAssembles(env: StoreEnv, e2: map<string, Blob>, id: string, cs: nat, artifact: seq<byte>)
    requires cs > 0 && |artifact| > 0
    requires HasMetadata(MetadataView(env, e2, id))
    requires SizeField(MetadataView(env, e2, id).value) == |artifact|
    requires ChunksField(MetadataView(env, e2, id).value) == CeilDiv(|artifact|, cs)
    requires ChunkSizeField(MetadataView(env, e2, id).value) == cs
    requires forall i :: 0 <= i < CeilDiv(|artifact|, cs) ==>
               Reachable(env, ChunkKey(id, i)) && ChunkKey(id, i) in e2 && Truthy(e2[ChunkKey(id, i)])
               && StoredBytes(e2, ChunkKey(id, i)) == Slice(artifact, i, cs)
    ensures Reload(env, e2, id) == Ok(artifact)
  {
    var total := |artifact|;
    var n := CeilDiv(total, cs);
    forall i | 0 <= i < n ensures ReloadError(env, e2, id, cs, total, i).None? {
      SpanInside(total, cs, i);
    }
    ReloadStopSkip(env, e2, id, cs, total, n, n);
    var ws := ReloadWrites(e2, id, cs, n);
    var idx := seq(n, i => i);
    assert forall i :: 0 <= i < n ==> idx[i] == i;
    assert forall i :: 0 <= i < n ==> i in idx by {
      forall i | 0 <= i < n ensures i in idx { assert idx[i] == i; }
    }
    Assemble(artifact, cs, ws, idx);
    assert ReloadedBuffer(env, e2, id, cs, total, n) == artifact;
  }

  /**
   * Round trip: when every chunk key and the metadata key are writable, a
   * completed download leaves the artifact fully cached, and reloading it from
   * the store yields the same bytes the download returned.
   */
  lemma DownloadThenReload(env: StoreEnv, entries: map<string, Blob>, net: Network, id: string, url: string,
                           fallback: nat, artifact: seq<byte>)
    requires fallback > 0
    requires SizeFrom(env, entries, id, net.head) == Ok(|artifact|)
    requires ConsistentChunks(env, entries, net, id, ChunkSizeFor(net.latency, fallback), artifact)
    requires DownloadRun(env, entries, net, id, url, fallback).result.Ok?
    requires Reachable(env, MetadataKey(id))
    requires forall i :: 0 <= i < CeilDiv(|artifact|, ChunkSizeFor(net.latency, fallback)) ==> Reachable(env, ChunkKey(id, i))
    ensures FullyCached(env, DownloadRun(env, entries, net, id, url, fallback).entries, id)
    ensures Reload(env, DownloadRun(env, entries, net, id, url, fallback).entries, id) == Ok(artifact)
  {
    var cs := ChunkSizeFor(net.latency, fallback);
    var e1 := WithMetadata(env, entries, net, id, url, |artifact|, fallback);
    ConsistentAfterMetadata(env, entries, net, id, url, fallback, artifact);
    ConsistentScanCompletes(env, e1, net, id, cs, artifact);
    FetchThenReload(env, e1, net, id, url, cs, artifact);
  }

  /** A second `loadModel` after a completed download issues no Range request and returns the same bytes. */
  lemma SecondLoadFromCache(env: StoreEnv, entries: map<string, Blob>, net: Network, net2: Network, id: string,
                            url: string, fallback: nat, artifact: seq<byte>, loading: bool)
    requires fallback > 0
    requires SizeFrom(env, entries, id, net.head) == Ok(|artifact|)
    requires ConsistentChunks(env, entries, net, id, ChunkSizeFor(net.latency, fallback), artifact)
    requires DownloadRun(env, entries, net, id, url, fallback).result.Ok?
    requires Reachable(env, MetadataKey(id))
    requires forall i :: 0 <= i < CeilDiv(|artifact|, ChunkSizeFor(net.latency, fallback)) ==> Reachable(env, ChunkKey(id, i))
    ensures var again := LoadRun(env, DownloadRun(env, entries, net, id, url, fallback).entries, net2, id, url, fallback, loading);
            again.issued == [] && again.result == DownloadRun(env, entries, net, id, url, fallback).result
            && again.entries == DownloadRun(env, entries, net, id, url, fallback).entries
  {
    DownloadAssembles(env, entries, net, id, url, fallback, artifact);
    DownloadThenReload(env, entries, net, id, url, fallback, artifact);
  }

  /** A load of a fully cached artifact issues no Range request and leaves the store as it was. */
  lemma CachedLoadIsOffline(env: StoreEnv, entries: map<string, Blob>, net: Network, id: string, url: string,
                            fallback: nat, loading: bool)
    requires fallback > 0 && FullyCached(env, entries, id)
    ensures var r := LoadRun(env, entries, net, id, url, fallback, loading);
            r.issued == [] && r.entries == entries && r.result == Reload(env, entries, id)
            && r.events[0] == OnProgress(0.5)
  {
  }

  /** A failed download reaches `onError` twice through `loadModel`: once inside the download and once in `loadModel`. */
  lemma LoadReportsDownloadErrorTwice(env: StoreEnv, entries: map<string, Blob>, net: Network, id: string, url: string,
                                      fallback: nat)
    requires fallback > 0 && !FullyCached(env, entries, id)
    requires DownloadRun(env, entries, net, id, url, fallback).result.Err?
    ensures var e := DownloadRun(env, entries, net, id, url, fallback).result.error;
            var evs := LoadRun(env, entries, net, id, url, fallback, false).events;
            |evs| >= 2 && evs[|evs| - 1] == OnError(e) && evs[|evs| - 2] == OnError(e)
  {
    DownloadEvents(env, entries, net, id, url, fallback);
  }

  /** A reload fails with "metadata missing" exactly when no truthy metadata can be read. */
  lemma ReloadNeedsMetadata(env: StoreEnv, entries: map<string, Blob>, id: string)
    ensures !HasMetadata(MetadataView(env, entries, id)) <==> Reload(env, entries, id) == Err(MetadataMissing)
  {
  }

  /**
   * A clear that reports success removes the metadata and every chunk key below
   * the recorded count, so the artifact no longer counts as cached; keys of any
   * other artifact keep their values.
   */
  lemma ClearForgetsModel(env: StoreEnv, entries: map<string, Blob>, id: string, other: string)
    requires HasMetadata(MetadataView(env, entries, id))
    requires ClearRun(env, entries, id).ok
    ensures !HasMetadata(MetadataView(env, ClearRun(env, entries, id).entries, id))
    ensures !FullyCached(env, ClearRun(env, entries, id).entries, id)
    ensures var n := ChunksField(MetadataView(env, entries, id).value);
            forall i :: 0 <= i < n ==> ChunkKey(id, i) !in ClearRun(env, entries, id).entries
    ensures var n := ChunksField(MetadataView(env, entries, id).value);
            other != MetadataKey(id) && other !in ChunkKeysBelow(id, n) && other in entries ==>
              other in ClearRun(env, entries, id).entries && ClearRun(env, entries, id).entries[other] == entries[other]
  {
  }

  /**
   * A clear that fails part-way has removed exactly the chunks before the
   * failing delete, and it is a chunk delete that failed: the metadata was
   * read, so its key is not a failing one and its final delete succeeds.
   */
  lemma ClearStopsAtFailure(env: StoreEnv, entries: map<string, Blob>, id: string)
    requires HasMetadata(MetadataView(env, entries, id))
    requires !ClearRun(env, entries, id).ok
    ensures var n := ChunksField(MetadataView(env, entries, id).value);
            var stop := ClearStop(env, id, n, 0);
            ClearRun(env, entries, id).entries == entries - ChunkKeysBelow(id, stop)
            && stop < n && MetadataKey(id) !in env.brokenKeys
  {
  }
}
