/**
 * `ProgressiveLoadService`: the object that downloads the model artifact in
 * Range-requested chunks, keeps every chunk in the store as it arrives and
 * rebuilds the artifact from the store on later loads.
 *
 * Each operation is a method on the service's mutable state and a
 * `byte` array buffer; its contract ties the outcome, the callbacks, the
 * Range requests and the new store contents to the functions of `LoadPlan`,
 * where the loader's promises are proved. The network is the `Network`
 * value each call is given; the callbacks are returned as the sequence of
 * events they would receive.
 */
module ProgressiveLoad {
  import opened Wrappers
  import opened Cache
  import opened ChunkPlan
  import opened LoadPlan

  const DefaultModelId: string := "qwen3-0.6b"
  const DefaultModelUrl: string := "https://cdn.jsppt.com/models/qwen3-0.6b-q4.gguf"

  /** `modelView.set(data, at)`: copies the write into the buffer byte by byte. */
  method CopyInto(buf: array<byte>, w: Write)
    requires Fits(w, buf.Length)
    modifies buf
    ensures buf[..] == Paste(old(buf[..]), w)
  {
    var k := 0;
    while k < |w.data|
      invariant 0 <= k <= |w.data|
      invariant forall p :: 0 <= p < buf.Length ==>
                  buf[p] == if w.at <= p < w.at + k then w.data[p - w.at] else old(buf[p])
    {
      buf[w.at + k] := w.data[k];
      k := k + 1;
    }
    ghost var after := Paste(old(buf[..]), w);
    assert forall p :: 0 <= p < buf.Length ==> buf[..][p] == after[p];
  }

  class ProgressiveLoadService {
    const modelId: string
    const modelUrl: string
    /** `options.chunkSize`: the chunk size used when the latency probe fails. */
    const chunkSize: nat
    const metadataKey: string
    /** The shared `cacheService`. */
    const store: CacheService

    var totalChunks: nat
    var loadedChunks: nat
    var totalSize: nat
    /** `abortController`: `None` for null, otherwise whether its signal is aborted. */
    var abort: Option<bool>
    var isLoading: bool
    var progress: real
    var error: Option<LoadError>

    ghost predicate Valid()
      reads this, store
    {
      store.Valid() && chunkSize > 0 && metadataKey == MetadataKey(modelId)
    }

    /** `new ProgressiveLoadService(options)`: each option left out takes its default. */
    constructor (store: CacheService, modelId: Option<string>, modelUrl: Option<string>, chunkSize: Option<nat>)
      requires store.Valid() && chunkSize != Some(0)
      ensures Valid() && this.store == store
      ensures this.modelId == (if modelId.Some? then modelId.value else DefaultModelId)
      ensures this.modelUrl == (if modelUrl.Some? then modelUrl.value else DefaultModelUrl)
      ensures this.chunkSize == (if chunkSize.Some? then chunkSize.value else DefaultChunkSize)
      ensures totalChunks == 0 && loadedChunks == 0 && totalSize == 0 && abort.None?
      ensures !isLoading && progress == 0.0 && error.None?
    {
      this.store := store;
      this.modelId := if modelId.Some? then modelId.value else DefaultModelId;
      this.modelUrl := if modelUrl.Some? then modelUrl.value else DefaultModelUrl;
      this.chunkSize := if chunkSize.Some? then chunkSize.value else DefaultChunkSize;
      metadataKey := MetadataKey(if modelId.Some? then modelId.value else DefaultModelId);
      totalChunks := 0;
      loadedChunks := 0;
      totalSize := 0;
      abort := None;
      isLoading := false;
      progress := 0.0;
      error := None;
    }

    /** `determineOptimalChunkSize`, given the probe's round trip (`None` when it failed). */
    method DetermineOptimalChunkSize(latency: Option<nat>) returns (cs: nat)
      requires Valid()
      ensures cs == ChunkSizeFor(latency, chunkSize) && cs > 0
    {
      if latency.None? {
        return chunkSize;
      }
      var ms := latency.value;
      if ms < 100 {
        cs := 20 * MiB;
      } else if ms < 500 {
        cs := 10 * MiB;
      } else {
        cs := 5 * MiB;
      }
    }

    /** `getModelMetadata`: a failed read yields `None`. */
    method GetModelMetadata() returns (mv: Option<Blob>)
      requires Valid()
      modifies store
      ensures Valid() && store.entries == old(store.entries)
      ensures mv == MetadataView(store.env, store.entries, modelId)
    {
      var r := store.GetModel(metadataKey);
      mv := if r.Ok? then r.value else None;
    }

    /** `saveModelMetadata`: true exactly when the put succeeded. */
    method SaveModelMetadata(meta: Blob) returns (ok: bool)
      requires Valid()
      modifies store
      ensures Valid()
      ensures ok == Reachable(store.env, metadataKey)
      ensures store.entries == AfterPut(store.env, old(store.entries), metadataKey, meta)
    {
      var r := store.SaveModel(metadataKey, meta);
      ok := r.Ok? && r.value;
    }

    /** `isModelFullyCached` */
    method IsModelFullyCached() returns (b: bool)
      requires Valid()
      modifies store
      ensures Valid() && store.entries == old(store.entries)
      ensures b == FullyCached(store.env, store.entries, modelId)
    {
      var mv := GetModelMetadata();
      if !HasMetadata(mv) || ChunksField(mv.value) == 0 {
        return false;
      }
      var n := ChunksField(mv.value);
      var i := 0;
      while i < n
        invariant Valid() && store.entries == old(store.entries)
        invariant 0 <= i <= n
        invariant forall j :: 0 <= j < i ==> Present(store.env, store.entries, ChunkKey(modelId, j))
      {
        var has := store.HasModel(ChunkKey(modelId, i));
        if !has {
          return false;
        }
        i := i + 1;
      }
      b := true;
    }

    /** `getModelSize`, given the reply to the HEAD request. */
    method GetModelSize(head: HeadReply) returns (r: Result<nat, LoadError>)
      requires Valid()
      modifies store
      ensures Valid() && store.entries == old(store.entries)
      ensures r == SizeFrom(store.env, store.entries, modelId, head)
    {
      var mv := GetModelMetadata();
      if HasMetadata(mv) && SizeField(mv.value) != 0 {
        return Ok(SizeField(mv.value));
      }
      match head
      case HeadNetworkError =>
        r := Err(NetworkFailure);
      case HeadResponse(status, len) =>
        if !HttpOk(status) {
          r := Err(SizeRequestFailed(status));
        } else if len == 0 {
          r := Err(SizeUnavailable);
        } else {
          r := Ok(len);
        }
    }

    /** `cancelDownload`: aborts the running download's signal; without a download it does nothing. */
    method CancelDownload()
      modifies this`abort
      ensures abort == if old(abort).Some? then Some(true) else None
    {
      if abort.Some? {
        abort := Some(true);
      }
    }

    /**
     * The first loop of `downloadModelInChunks`: copies every cached chunk
     * into the buffer and collects a Range task for every missing one. It
     * stops at the first cached chunk that does not fit.
     */
    method ScanCached(buf: array<byte>, cs: nat) returns (stop: nat, tasks: seq<Task>, events: seq<Event>)
      requires Valid() && cs > 0 && buf.Length > 0
      requires buf[..] == Zeros(buf.Length)
      requires totalChunks == CeilDiv(buf.Length, cs) && loadedChunks == 0 && progress == 0.0
      modifies this`loadedChunks, this`progress, store, buf
      ensures Valid() && store.entries == old(store.entries)
      ensures stop == ScanStop(store.env, store.entries, modelId, cs, buf.Length, totalChunks, 0)
      ensures loadedChunks == |CachedChunks(store.env, store.entries, modelId, stop)|
      ensures events == ProgressRun(0, loadedChunks, totalChunks)
      ensures progress == Fraction(loadedChunks, totalChunks)
      ensures stop == totalChunks ==>
                tasks == PendingTasks(store.env, store.entries, modelId, cs, buf.Length)
                && buf[..] == ScannedBuffer(store.env, store.entries, modelId, cs, buf.Length, totalChunks)
    {
      var n := totalChunks;
      var total := buf.Length;
      ghost var env, e := store.env, store.entries;
      var i := 0;
      tasks, events := [], [];
      while i < n
        invariant Valid() && store.entries == e && totalChunks == n
        invariant 0 <= i <= n
        invariant forall j :: 0 <= j < i ==> CachedFits(env, e, modelId, cs, total, j)
        invariant tasks == TasksFor(modelId, cs, total, PendingChunks(env, e, modelId, i))
        invariant loadedChunks == |CachedChunks(env, e, modelId, i)|
        invariant events == ProgressRun(0, loadedChunks, n)
        invariant progress == Fraction(loadedChunks, n)
        invariant buf[..] == ScannedBuffer(env, e, modelId, cs, total, i)
      {
        var fits;
        fits, tasks, events := ScanChunk(buf, cs, i, tasks, events);
        if !fits {
          ScanStopSkip(env, e, modelId, cs, total, n, i);
          return i, tasks, events;
        }
        assert store.entries == e && CachedFits(env, e, modelId, cs, total, i);
        forall j | 0 <= j < i + 1 ensures CachedFits(env, e, modelId, cs, total, j) {
          if j < i {
            assert CachedFits(env, e, modelId, cs, total, j);
          }
        }
        i := i + 1;
      }
      stop := n;
    }

    /**
     * One round of the scan: chunk `i` is copied from the store into the
     * buffer when `hasModel` reports it, and otherwise queued as a Range task.
     * `fits` is false when the cached chunk does not fit, so `set` throws.
     */
    method ScanChunk(buf: array<byte>, cs: nat, i: nat, tasks: seq<Task>, events: seq<Event>)
      returns (fits: bool, tasks': seq<Task>, events': seq<Event>)
      requires Valid() && cs > 0 && buf.Length > 0 && totalChunks > 0
      requires forall j :: 0 <= j < i ==> CachedFits(store.env, store.entries, modelId, cs, buf.Length, j)
      requires tasks == TasksFor(modelId, cs, buf.Length, PendingChunks(store.env, store.entries, modelId, i))
      requires loadedChunks == |CachedChunks(store.env, store.entries, modelId, i)|
      requires events == ProgressRun(0, loadedChunks, totalChunks)
      requires buf[..] == ScannedBuffer(store.env, store.entries, modelId, cs, buf.Length, i)
      modifies this`loadedChunks, this`progress, store, buf
      ensures Valid() && store.entries == old(store.entries)
      ensures fits == CachedFits(store.env, store.entries, modelId, cs, buf.Length, i)
      ensures !fits ==> loadedChunks == old(loadedChunks) && progress == old(progress) && events' == events
      ensures fits ==>
                tasks' == TasksFor(modelId, cs, buf.Length, PendingChunks(store.env, store.entries, modelId, i + 1))
                && loadedChunks == |CachedChunks(store.env, store.entries, modelId, i + 1)|
                && events' == ProgressRun(0, loadedChunks, totalChunks)
                && (progress == if loadedChunks == old(loadedChunks) then old(progress) else Fraction(loadedChunks, totalChunks))
                && buf[..] == ScannedBuffer(store.env, store.entries, modelId, cs, buf.Length, i + 1)
    {
      ghost var env, e := store.env, store.entries;
      var total := buf.Length;
      var key := ChunkKey(modelId, i);
      var start := i * cs;
      ScanStep(env, e, modelId, cs, total, i);
      var has := store.HasModel(key);
      if has {
        var got := store.GetModel(key);
        var data := BytesOf(got.value.value);
        if start + |data| > total {
          return false, tasks, events;
        }
        ScannedBufferStep(env, e, modelId, cs, total, i);
        CopyInto(buf, Write(start, data));
        ProgressRunStep(0, loadedChunks, totalChunks);
        loadedChunks := loadedChunks + 1;
        progress := Fraction(loadedChunks, totalChunks);
        fits, tasks', events' := true, tasks, events + [OnProgress(progress)];
      } else {
        ScannedBufferSkip(env, e, modelId, cs, total, i);
        fits, tasks', events' := true, tasks + [Task(key, ChunkSpan(i, cs, total))], events;
      }
    }

    /**
     * The second loop of `downloadModelInChunks`: fetches each pending chunk
     * with a Range request, saves it in the store and copies it into the
     * buffer, until the first failure. `net.cancelBefore` says before which
     * pending chunk `cancelDownload` is called.
     */
    method FetchPending(buf: array<byte>, net: Network, ts: seq<Task>, events0: seq<Event>)
      returns (m: nat, err: Option<LoadError>, events: seq<Event>, issued: seq<Span>)
      requires Valid() && totalChunks > 0 && abort == Some(false)
      requires events0 == ProgressRun(0, loadedChunks, totalChunks)
      requires progress == Fraction(loadedChunks, totalChunks)
      modifies this`loadedChunks, this`progress, this`abort, store, buf
      ensures Valid()
      ensures m == FirstStop(store.env, net, buf.Length, ts, 0)
      ensures err == if m < |ts| then StepError(store.env, net, buf.Length, m, ts[m]) else None
      ensures store.entries == SaveFetched(store.env, old(store.entries), net, ts[..SavedCount(store.env, net, buf.Length, ts, m)])
      ensures m == |ts| ==> buf[..] == FetchedBuffer(store.env, net, old(buf[..]), ts, m)
      ensures loadedChunks == old(loadedChunks) + m
      ensures events == ProgressRun(0, loadedChunks, totalChunks)
      ensures progress == Fraction(loadedChunks, totalChunks)
      ensures issued == IssuedRequests(net, ts, m)
      ensures abort == if m < |ts| && net.cancelBefore == Some(m) then Some(true) else Some(false)
    {
      var n := totalChunks;
      var total := buf.Length;
      ghost var env, e1, base := store.env, store.entries, buf[..];
      var k := 0;
      events, issued := events0, [];
      while k < |ts|
        invariant Valid() && totalChunks == n && abort == Some(false)
        invariant 0 <= k <= |ts|
        invariant forall j :: 0 <= j < k ==> StepError(env, net, total, j, ts[j]).None?
        invariant store.entries == SaveFetched(env, e1, net, ts[..k])
        invariant buf[..] == FetchedBuffer(env, net, base, ts, k)
        invariant loadedChunks == old(loadedChunks) + k
        invariant events == ProgressRun(0, loadedChunks, n)
        invariant progress == Fraction(loadedChunks, n)
        invariant issued == Spans(ts[..k])
      {
        FirstStopSkip(env, net, total, ts, k);
        SpansStep(ts, k);
        SaveFetchedStep(env, e1, net, ts, k);
        var e;
        e, events, issued := FetchChunk(buf, net, ts[k], k, events, issued);
        if e.Some? {
          return k, e, events, issued;
        }
        FetchedBufferStep(env, net, base, ts, k);
        k := k + 1;
      }
      m, err := k, None;
      assert ts[..k] == ts;
    }

    /**
     * One round of the fetch phase for pending task `t` at position `k`:
     * the abort check, the Range request, the status check, the save, and
     * the copy into the buffer.
     */
    method FetchChunk(buf: array<byte>, net: Network, t: Task, k: nat, events: seq<Event>, issued: seq<Span>)
      returns (err: Option<LoadError>, events': seq<Event>, issued': seq<Span>)
      requires Valid() && totalChunks > 0 && abort == Some(false)
      requires events == ProgressRun(0, loadedChunks, totalChunks)
      modifies this`loadedChunks, this`progress, this`abort, store, buf
      ensures Valid()
      ensures err == StepError(store.env, net, buf.Length, k, t)
      ensures issued' == issued + (if net.cancelBefore == Some(k) then [] else [t.span])
      ensures abort == if net.cancelBefore == Some(k) then Some(true) else Some(false)
      ensures err.None? || err == Some(BufferOverflow) ==>
                store.entries == AfterPut(store.env, old(store.entries), t.key, Bytes(Body(net.fetchRange(t.span))))
      ensures err.Some? && err != Some(BufferOverflow) ==> store.entries == old(store.entries)
      ensures err.Some? ==> loadedChunks == old(loadedChunks) && progress == old(progress) && events' == events
      ensures err.None? ==>
                Fits(FetchWrite(net, t), buf.Length)
                && buf[..] == Paste(old(buf[..]), FetchWrite(net, t))
                && loadedChunks == old(loadedChunks) + 1
                && events' == ProgressRun(0, loadedChunks, totalChunks)
                && progress == Fraction(loadedChunks, totalChunks)
    {
      if net.cancelBefore == Some(k) {
        CancelDownload();
      }
      if abort == Some(true) {
        return Some(Cancelled), events, issued;
      }
      issued' := issued + [t.span];
      match net.fetchRange(t.span)
      case RangeAborted =>
        return Some(Cancelled), events, issued';
      case RangeNetworkError =>
        return Some(NetworkFailure), events, issued';
      case RangeResponse(status, body) =>
        if !(HttpOk(status) || status == 206) {
          return Some(ChunkFetchFailed(status)), events, issued';
        }
        var saved := store.SaveModel(t.key, Bytes(body));
        if saved.Err? {
          return Some(StoreFailure), events, issued';
        }
        if t.span.start + |body| > buf.Length {
          return Some(BufferOverflow), events, issued';
        }
        CopyInto(buf, Write(t.span.start, body));
        ProgressRunStep(0, loadedChunks, totalChunks);
        loadedChunks := loadedChunks + 1;
        progress := Fraction(loadedChunks, totalChunks);
        err, events' := None, events + [OnProgress(progress)];
    }

    /** The attempt once size, chunk size and metadata are settled: a fresh buffer, the scan, then the fetch phase. */
    method Attempt(net: Network, cs: nat) returns (r: Result<seq<byte>, LoadError>, events: seq<Event>, issued: seq<Span>)
      requires Valid() && cs > 0 && totalSize > 0 && totalChunks == CeilDiv(totalSize, cs)
      requires loadedChunks == 0 && progress == 0.0 && abort == Some(false)
      modifies this`loadedChunks, this`progress, this`abort, store
      ensures Valid()
      ensures var run := AttemptRun(store.env, old(store.entries), net, modelId, cs, totalSize);
              r == run.result && events == run.events && issued == run.issued && store.entries == run.entries
              && run.counters == Some(Counters(totalSize, totalChunks, loadedChunks))
              && progress == Fraction(loadedChunks, totalChunks)
    {
      var buf := new byte[totalSize](_ => 0);
      assert buf[..] == Zeros(totalSize);
      var stop, tasks;
      stop, tasks, events := ScanCached(buf, cs);
      if stop < totalChunks {
        r, events, issued := Err(BufferOverflow), events + [OnError(BufferOverflow)], [];
        return;
      }
      r, events, issued := FetchPhase(buf, net, cs, tasks, events);
    }

    /** After a complete scan: nothing to fetch completes at once; otherwise the fetch loop runs. */
    method FetchPhase(buf: array<byte>, net: Network, cs: nat, tasks: seq<Task>, events0: seq<Event>)
      returns (r: Result<seq<byte>, LoadError>, events: seq<Event>, issued: seq<Span>)
      requires Valid() && cs > 0 && buf.Length > 0 && totalChunks == CeilDiv(buf.Length, cs) && abort == Some(false)
      requires ScanCompletes(store.env, store.entries, modelId, cs, buf.Length)
      requires tasks == PendingTasks(store.env, store.entries, modelId, cs, buf.Length)
      requires buf[..] == ScannedBuffer(store.env, store.entries, modelId, cs, buf.Length, totalChunks)
      requires loadedChunks == |CachedChunks(store.env, store.entries, modelId, totalChunks)|
      requires events0 == ProgressRun(0, loadedChunks, totalChunks) && progress == Fraction(loadedChunks, totalChunks)
      modifies this`loadedChunks, this`progress, this`abort, store, buf
      ensures Valid()
      ensures FetchRun(store.env, old(store.entries), net, modelId, cs, buf.Length)
              == Run(r, events, issued, store.entries, Some(Counters(buf.Length, totalChunks, loadedChunks)))
      ensures progress == Fraction(loadedChunks, totalChunks)
    {
      ghost var base, loaded := buf[..], loadedChunks;
      if tasks == [] {
        FetchRunNoTasks(store.env, store.entries, net, modelId, cs, buf.Length, loaded, base);
        assert FetchRun(store.env, store.entries, net, modelId, cs, buf.Length)
               == Run(Ok(buf[..]), events0 + [OnComplete(buf[..])], [], store.entries,
                      Some(Counters(buf.Length, totalChunks, loadedChunks)));
        return Ok(buf[..]), events0 + [OnComplete(buf[..])], [];
      }
      ghost var e1 := store.entries;
      var m, err;
      m, err, events, issued := FetchPending(buf, net, tasks, events0);
      FetchRunFromLoop(store.env, e1, net, modelId, cs, buf.Length, tasks, m, loaded, base,
                       err, events, issued, store.entries, buf[..]);
      assert totalChunks == CeilDiv(buf.Length, cs);
      assert loadedChunks == loaded + m;
      assert Counters(buf.Length, totalChunks, loadedChunks) == Counters(buf.Length, CeilDiv(buf.Length, cs), loaded + m);
      r := if err.Some? then Err(err.value) else Ok(buf[..]);
      events := events + [if err.Some? then OnError(err.value) else OnComplete(buf[..])];
    }

    /**
     * `downloadModelInChunks`. While another download runs it fails at once
     * and changes nothing; otherwise it behaves as `DownloadRun`, records
     * the error, and leaves the service idle.
     */
    method DownloadModelInChunks(net: Network) returns (r: Result<seq<byte>, LoadError>, events: seq<Event>, issued: seq<Span>)
      requires Valid()
      modifies this, store
      ensures Valid()
      ensures old(isLoading) ==>
                r == Err(AlreadyLoading) && events == [] && issued == []
                && unchanged(this) && store.entries == old(store.entries)
      ensures !old(isLoading) ==>
                var run := DownloadRun(store.env, old(store.entries), net, modelId, modelUrl, chunkSize);
                r == run.result && events == run.events && issued == run.issued && store.entries == run.entries
                && !isLoading && abort.None? && error == (if r.Err? then Some(r.error) else None)
                && (run.counters.Some? ==>
                      run.counters == Some(Counters(totalSize, totalChunks, loadedChunks))
                      && totalChunks > 0 && progress == Fraction(loadedChunks, totalChunks))
                && (run.counters.None? ==>
                      totalSize == old(totalSize) && totalChunks == old(totalChunks)
                      && loadedChunks == old(loadedChunks) && progress == 0.0)
    {
      if isLoading {
        return Err(AlreadyLoading), [], [];
      }
      isLoading, progress, error, abort := true, 0.0, None, Some(false);
      ghost var env, e0 := store.env, store.entries;
      var size := GetModelSize(net.head);
      if size.Err? {
        r, events, issued := Err(size.error), [OnError(size.error)], [];
      } else {
        totalSize := size.value;
        var cs := DetermineOptimalChunkSize(net.latency);
        totalChunks := CeilDiv(totalSize, cs);
        loadedChunks := 0;
        var saved := SaveModelMetadata(MetadataRecord(modelId, modelUrl, totalSize, totalChunks, cs, net.now));
        assert store.entries == WithMetadata(env, e0, net, modelId, modelUrl, totalSize, chunkSize);
        r, events, issued := Attempt(net, cs);
      }
      if r.Err? {
        error := Some(r.error);
      }
      isLoading, abort := false, None;
    }

    /** `loadModelFromCache` */
    method LoadModelFromCache() returns (r: Result<seq<byte>, LoadError>)
      requires Valid()
      modifies store
      ensures Valid() && store.entries == old(store.entries)
      ensures r == Reload(store.env, store.entries, modelId)
    {
      var mv := GetModelMetadata();
      if !HasMetadata(mv) {
        return Err(MetadataMissing);
      }
      ghost var env, e := store.env, store.entries;
      var total, n, cs := SizeField(mv.value), ChunksField(mv.value), ChunkSizeField(mv.value);
      var buf := new byte[total](_ => 0);
      assert buf[..] == Zeros(total);
      var i := 0;
      while i < n
        invariant Valid() && store.entries == e
        invariant 0 <= i <= n
        invariant forall j :: 0 <= j < i ==> ReloadError(env, e, modelId, cs, total, j).None?
        invariant buf[..] == ReloadedBuffer(env, e, modelId, cs, total, i)
      {
        ReloadStopSkip(env, e, modelId, cs, total, n, i);
        var got := store.GetModel(ChunkKey(modelId, i));
        if got.Err? {
          return Err(StoreFailure);
        }
        if got.value.None? || !Truthy(got.value.value) {
          return Err(MissingChunk(i));
        }
        var data := BytesOf(got.value.value);
        if i * cs + |data| > total {
          return Err(BufferOverflow);
        }
        ReloadedBufferStep(env, e, modelId, cs, total, i);
        CopyInto(buf, Write(i * cs, data));
        i := i + 1;
      }
      r := Ok(buf[..]);
    }

    /** `loadModel`: from the store when the artifact is fully cached, otherwise by download. */
    method LoadModel(net: Network) returns (r: Result<seq<byte>, LoadError>, events: seq<Event>, issued: seq<Span>)
      requires Valid()
      modifies this, store
      ensures Valid()
      ensures var run := LoadRun(store.env, old(store.entries), net, modelId, modelUrl, chunkSize, old(isLoading));
              r == run.result && events == run.events && issued == run.issued && store.entries == run.entries
      // the cache path and the guard leave the service's own fields alone
      ensures FullyCached(store.env, old(store.entries), modelId) || old(isLoading) ==> unchanged(this)
      // a download leaves the service idle, with its error and counters as `downloadModelInChunks` sets them
      ensures !FullyCached(store.env, old(store.entries), modelId) && !old(isLoading) ==>
                var run := DownloadRun(store.env, old(store.entries), net, modelId, modelUrl, chunkSize);
                !isLoading && abort.None? && error == (if r.Err? then Some(r.error) else None)
                && (run.counters.Some? ==>
                      run.counters == Some(Counters(totalSize, totalChunks, loadedChunks))
                      && totalChunks > 0 && progress == Fraction(loadedChunks, totalChunks))
                && (run.counters.None? ==>
                      totalSize == old(totalSize) && totalChunks == old(totalChunks)
                      && loadedChunks == old(loadedChunks) && progress == 0.0)
    {
      var cached := IsModelFullyCached();
      if cached {
        var d := LoadModelFromCache();
        if d.Err? {
          return d, [OnProgress(0.5), OnError(d.error)], [];
        }
        return d, [OnProgress(0.5), OnProgress(1.0), OnComplete(d.value)], [];
      }
      r, events, issued := DownloadModelInChunks(net);
      if r.Err? {
        events := events + [OnError(r.error)];
      }
    }

    /** `clearModelCache`: deletes the chunks named by the metadata, then the metadata. */
    method ClearModelCache() returns (ok: bool)
      requires Valid()
      modifies store
      ensures Valid()
      ensures Cleared(ok, store.entries) == ClearRun(store.env, old(store.entries), modelId)
    {
      var mv := GetModelMetadata();
      if !HasMetadata(mv) {
        return true;
      }
      ghost var env, e := store.env, store.entries;
      var n := ChunksField(mv.value);
      var i := 0;
      while i < n
        invariant Valid() && env.canOpen
        invariant 0 <= i <= n
        invariant forall j :: 0 <= j < i ==> ChunkKey(modelId, j) !in env.brokenKeys
        invariant store.entries == e - ChunkKeysBelow(modelId, i)
      {
        var d := store.DeleteModel(ChunkKey(modelId, i));
        if d.Err? {
          return false;
        }
        ChunkKeysBelowStep(e, modelId, i);
        i := i + 1;
      }
      var d := store.DeleteModel(metadataKey);
      ok := d.Ok?;
    }
  }

  // ---------------------------------------------------------------------------
  // One step of each loop, stated on the specification functions
  // ---------------------------------------------------------------------------

  lemma ScannedBufferStep(env: StoreEnv, e: map<string, Blob>, id: string, cs: nat, total: nat, i: nat)
    requires forall j :: 0 <= j < i ==> CachedFits(env, e, id, cs, total, j)
    requires Present(env, e, ChunkKey(id, i)) && i * cs + |StoredBytes(e, ChunkKey(id, i))| <= total
    ensures forall j :: 0 <= j < i + 1 ==> CachedFits(env, e, id, cs, total, j)
    ensures ScannedBuffer(env, e, id, cs, total, i + 1)
            == Paste(ScannedBuffer(env, e, id, cs, total, i), Write(i * cs, StoredBytes(e, ChunkKey(id, i))))
  {
    var c := CachedChunks(env, e, id, i);
    var w := Write(i * cs, StoredBytes(e, ChunkKey(id, i)));
    assert CachedChunks(env, e, id, i + 1) == c + [i];
    var ws := CachedWrites(e, id, cs, c);
    assert CachedWrites(e, id, cs, c + [i]) == ws + [w];
    assert (ws + [w])[..|ws|] == ws;
    CachedWritesFit(env, e, id, cs, total, i);
    CachedWritesFit(env, e, id, cs, total, i + 1);
  }

  lemma ScannedBufferSkip(env: StoreEnv, e: map<string, Blob>, id: string, cs: nat, total: nat, i: nat)
    requires forall j :: 0 <= j < i ==> CachedFits(env, e, id, cs, total, j)
    requires !Present(env, e, ChunkKey(id, i))
    ensures forall j :: 0 <= j < i + 1 ==> CachedFits(env, e, id, cs, total, j)
    ensures ScannedBuffer(env, e, id, cs, total, i + 1) == ScannedBuffer(env, e, id, cs, total, i)
  {
    assert CachedChunks(env, e, id, i + 1) == CachedChunks(env, e, id, i);
  }

  /** How the cached and pending lists and the pending tasks grow by chunk `i`. */
  lemma ScanStep(env: StoreEnv, e: map<string, Blob>, id: string, cs: nat, total: nat, i: nat)
    requires cs > 0 && total > 0
    ensures Present(env, e, ChunkKey(id, i)) ==>
              CachedChunks(env, e, id, i + 1) == CachedChunks(env, e, id, i) + [i]
              && TasksFor(id, cs, total, PendingChunks(env, e, id, i + 1)) == TasksFor(id, cs, total, PendingChunks(env, e, id, i))
    ensures !Present(env, e, ChunkKey(id, i)) ==>
              CachedChunks(env, e, id, i + 1) == CachedChunks(env, e, id, i)
              && TasksFor(id, cs, total, PendingChunks(env, e, id, i + 1))
                 == TasksFor(id, cs, total, PendingChunks(env, e, id, i)) + [Task(ChunkKey(id, i), ChunkSpan(i, cs, total))]
  {
    var ps := PendingChunks(env, e, id, i);
    if Present(env, e, ChunkKey(id, i)) {
      assert PendingChunks(env, e, id, i + 1) == ps + [] == ps;
    } else {
      assert PendingChunks(env, e, id, i + 1) == ps + [i];
      assert TasksFor(id, cs, total, ps + [i]) == TasksFor(id, cs, total, ps) + [TaskFor(id, cs, total, i)];
    }
  }

  lemma SpansStep(ts: seq<Task>, k: nat)
    requires k < |ts|
    ensures Spans(ts[..k + 1]) == Spans(ts[..k]) + [ts[k].span]
  {
  }

  lemma SaveFetchedStep(env: StoreEnv, e: map<string, Blob>, net: Network, ts: seq<Task>, k: nat)
    requires k < |ts|
    ensures SaveFetched(env, e, net, ts[..k + 1])
            == AfterPut(env, SaveFetched(env, e, net, ts[..k]), ts[k].key, Bytes(Body(net.fetchRange(ts[k].span))))
  {
    assert ts[..k + 1][..k] == ts[..k];
  }

  lemma FetchedBufferStep(env: StoreEnv, net: Network, base: seq<byte>, ts: seq<Task>, k: nat)
    requires k < |ts|
    requires forall j :: 0 <= j < k + 1 ==> StepError(env, net, |base|, j, ts[j]).None?
    ensures Fits(FetchWrite(net, ts[k]), |base|)
    ensures FetchedBuffer(env, net, base, ts, k + 1)
            == Paste(FetchedBuffer(env, net, base, ts, k), FetchWrite(net, ts[k]))
  {
    var ws := FetchWrites(net, ts[..k]);
    assert FetchWrites(net, ts[..k + 1]) == ws + [FetchWrite(net, ts[k])];
    assert (ws + [FetchWrite(net, ts[k])])[..|ws|] == ws;
    FetchWritesFit(env, net, |base|, ts, k);
    FetchWritesFit(env, net, |base|, ts, k + 1);
  }

  lemma ReloadedBufferStep(env: StoreEnv, e: map<string, Blob>, id: string, cs: nat, total: nat, i: nat)
    requires forall j :: 0 <= j < i ==> ReloadError(env, e, id, cs, total, j).None?
    requires ReloadError(env, e, id, cs, total, i).None?
    ensures forall j :: 0 <= j < i + 1 ==> ReloadError(env, e, id, cs, total, j).None?
    ensures ReloadedBuffer(env, e, id, cs, total, i + 1)
            == Paste(ReloadedBuffer(env, e, id, cs, total, i), Write(i * cs, StoredBytes(e, ChunkKey(id, i))))
  {
    var ws := ReloadWrites(e, id, cs, i);
    var w := Write(i * cs, StoredBytes(e, ChunkKey(id, i)));
    assert ReloadWrites(e, id, cs, i + 1) == ws + [w];
    assert (ws + [w])[..|ws|] == ws;
    ReloadWritesFit(env, e, id, cs, total, i);
    ReloadWritesFit(env, e, id, cs, total, i + 1);
  }

  lemma ChunkKeysBelowStep(e: map<string, Blob>, id: string, i: nat)
    ensures e - ChunkKeysBelow(id, i) - {ChunkKey(id, i)} == e - ChunkKeysBelow(id, i + 1)
  {
    assert ChunkKeysBelow(id, i + 1) == ChunkKeysBelow(id, i) + {ChunkKey(id, i)};
  }
}
