/**
 * The pure side of the resumable chunked loader: how the chunk size is chosen,
 * how `[0, totalSize)` is cut into byte ranges, the store keys, what copying a
 * chunk into the assembly buffer does, the progress callbacks, and the step
 * functions that decide where a download, a cache reload or a cache clear
 * stops. The class in progressive_load.dfy is proved against these.
 */
module ChunkPlan {
  import opened Wrappers
  import opened Strings
  import opened Cache

  const MiB: nat := 1024 * 1024
  /** `options.chunkSize` when the caller gives none. */
  const DefaultChunkSize: nat := 10 * MiB

  // ---------------------------------------------------------------------------
  // Chunk size and byte ranges
  // ---------------------------------------------------------------------------

  /**
   * `determineOptimalChunkSize`: the latency probe's round trip in
   * milliseconds, or `None` when the probe failed or timed out, picks the
   * chunk size; a failed probe falls back to `options.chunkSize`.
   */
  function ChunkSizeFor(latency: Option<nat>, fallback: nat): nat {
    match latency
    case None => fallback
    case Some(ms) =>
      if ms < 100 then 20 * MiB
      else if ms < 500 then 10 * MiB
      else 5 * MiB
  }

  /** A measured probe gives one of three sizes, and a faster probe never a smaller one. */
  lemma ChunkSizeBuckets(ms: nat, ms': nat, fallback: nat)
    ensures ChunkSizeFor(Some(ms), fallback) in {5 * MiB, 10 * MiB, 20 * MiB}
    ensures ms <= ms' ==> ChunkSizeFor(Some(ms), fallback) >= ChunkSizeFor(Some(ms'), fallback)
    ensures ChunkSizeFor(None, fallback) == fallback
  {
  }

  /** `Math.ceil(a / b)` for non-negative integers. */
  function CeilDiv(a: nat, b: nat): (r: nat)
    requires b > 0
    ensures r == 0 <==> a == 0
  {
    (a + b - 1) / b
  }

  /** `ceil(a / b)` is the least count of b-sized pieces that covers a. */
  lemma CeilDivCovers(a: nat, b: nat)
    requires b > 0
    ensures CeilDiv(a, b) * b >= a
    ensures CeilDiv(a, b) > 0 ==> (CeilDiv(a, b) - 1) * b < a
  {
    var q := CeilDiv(a, b);
    assert q * b + (a + b - 1) % b == a + b - 1;
    assert (q - 1) * b == q * b - b;
  }

  /** A byte range `[start, end]`, inclusive at both ends, as sent in `Range: bytes=start-end`. */
  datatype Span = Span(start: nat, end: nat)

  function Min(a: int, b: int): int {
    if a <= b then a else b
  }

  /** The range of chunk `i`: `start = i * chunkSize`, `end = min(start + chunkSize - 1, totalSize - 1)`. */
  function ChunkSpan(i: nat, cs: nat, total: nat): Span
    requires cs > 0 && total > 0
  {
    Span(i * cs, Min(i * cs + cs - 1, total - 1))
  }

  /** The number of bytes a range covers. */
  function SpanLength(s: Span): int {
    s.end - s.start + 1
  }

  lemma MulMonotone(a: nat, b: nat, c: nat)
    requires a <= b
    ensures a * c <= b * c
  {
  }

  /**
   * The ranges of chunks `0 .. totalChunks-1` tile `[0, totalSize)`: the first
   * starts at 0, each is non-empty and inside the artifact, each starts right
   * after the previous one ends, and the last ends at `totalSize - 1`.
   */
  lemma ChunkTiling(total: nat, cs: nat)
    requires total > 0 && cs > 0
    ensures CeilDiv(total, cs) >= 1
    ensures ChunkSpan(0, cs, total).start == 0
    ensures ChunkSpan(CeilDiv(total, cs) - 1, cs, total).end == total - 1
    ensures forall i :: 0 <= i < CeilDiv(total, cs) ==>
              ChunkSpan(i, cs, total).start <= ChunkSpan(i, cs, total).end < total
    ensures forall i :: 0 <= i < CeilDiv(total, cs) - 1 ==>
              ChunkSpan(i + 1, cs, total).start == ChunkSpan(i, cs, total).end + 1
  {
    var n := CeilDiv(total, cs);
    forall i | 0 <= i < n
      ensures ChunkSpan(i, cs, total).start <= ChunkSpan(i, cs, total).end < total
    {
      MulMonotone(i, n - 1, cs);
    }
    forall i | 0 <= i < n - 1
      ensures ChunkSpan(i + 1, cs, total).start == ChunkSpan(i, cs, total).end + 1
    {
      MulMonotone(i + 1, n - 1, cs);
      assert (i + 1) * cs == i * cs + cs;
    }
  }

  /** If `a < b` then chunk `b` starts at or after the end of chunk `a`. */
  lemma MulGap(a: nat, b: nat, c: nat)
    requires a < b
    ensures a * c + c <= b * c
  {
    assert b * c == a * c + (b - a) * c;
    MulMonotone(1, b - a, c);
  }

  /** `p / c` is the `q` with `q * c <= p < q * c + c`. */
  lemma DivUnique(i: nat, p: nat, c: nat)
    requires c > 0 && i * c <= p < i * c + c
    ensures p / c == i
  {
    var q := p / c;
    assert q * c + p % c == p;
    if q < i {
      MulGap(q, i, c);
    } else if q > i {
      MulGap(i, q, c);
    }
  }

  /** Every byte of the artifact lies in exactly one chunk: chunk `p / chunkSize`. */
  lemma ByteInChunk(total: nat, cs: nat, p: nat)
    requires total > 0 && cs > 0 && p < total
    ensures p / cs < CeilDiv(total, cs)
    ensures ChunkSpan(p / cs, cs, total).start <= p <= ChunkSpan(p / cs, cs, total).end
    ensures forall i :: 0 <= i < CeilDiv(total, cs) && ChunkSpan(i, cs, total).start <= p <= ChunkSpan(i, cs, total).end
              ==> i == p / cs
  {
    var n := CeilDiv(total, cs);
    var q := p / cs;
    assert q * cs + p % cs == p;
    if q >= n {
      MulMonotone(n, q, cs);
    }
    forall i | 0 <= i < n && ChunkSpan(i, cs, total).start <= p <= ChunkSpan(i, cs, total).end
      ensures i == q
    {
      DivUnique(i, p, cs);
    }
  }

  /** The range of one chunk below `totalChunks` is non-empty and inside the artifact. */
  lemma SpanInside(total: nat, cs: nat, i: nat)
    requires total > 0 && cs > 0 && i < CeilDiv(total, cs)
    ensures ChunkSpan(i, cs, total).start <= ChunkSpan(i, cs, total).end < total
  {
    MulMonotone(i, CeilDiv(total, cs) - 1, cs);
  }

  /** The one chunk whose range holds byte `p`. */
  lemma ChunkOf(total: nat, cs: nat, p: nat) returns (c: nat)
    requires total > 0 && cs > 0 && p < total
    ensures c < CeilDiv(total, cs)
    ensures ChunkSpan(c, cs, total).start <= p <= ChunkSpan(c, cs, total).end
    ensures forall i :: 0 <= i < CeilDiv(total, cs) && ChunkSpan(i, cs, total).start <= p <= ChunkSpan(i, cs, total).end
              ==> i == c
  {
    c := p / cs;
    ByteInChunk(total, cs, p);
  }

  /** A 25 MiB artifact in 10 MiB chunks is three ranges, the last one truncated. */
  lemma TwentyFiveMiBInTenMiBChunks()
    ensures CeilDiv(25 * MiB, 10 * MiB) == 3
    ensures ChunkSpan(0, 10 * MiB, 25 * MiB) == Span(0, 10485759)
    ensures ChunkSpan(1, 10 * MiB, 25 * MiB) == Span(10485760, 20971519)
    ensures ChunkSpan(2, 10 * MiB, 25 * MiB) == Span(20971520, 26214399)
  {
  }

  // ---------------------------------------------------------------------------
  // Store keys
  // ---------------------------------------------------------------------------

  /** `${modelId}_chunk_${i}` */
  function ChunkKey(id: string, i: nat): string {
    id + "_chunk_" + NatToString(i)
  }

  /** `${modelId}_metadata` */
  function MetadataKey(id: string): string {
    id + "_metadata"
  }

  /** Different chunk indices never share a key. */
  lemma ChunkKeysDistinct(id: string, i: nat, j: nat)
    requires i != j
    ensures ChunkKey(id, i) != ChunkKey(id, j)
  {
    var prefix := id + "_chunk_";
    if ChunkKey(id, i) == ChunkKey(id, j) {
      assert ChunkKey(id, i)[|prefix|..] == NatToString(i);
      assert ChunkKey(id, j)[|prefix|..] == NatToString(j);
      NatToStringInjective(i, j);
    }
  }

  /** No chunk key is the metadata key. */
  lemma ChunkKeyNotMetadataKey(id: string, i: nat)
    ensures ChunkKey(id, i) != MetadataKey(id)
  {
    assert ChunkKey(id, i)[|id| + 1] == 'c';
    assert MetadataKey(id)[|id| + 1] == 'm';
  }

  // ---------------------------------------------------------------------------
  // The assembly buffer
  // ---------------------------------------------------------------------------

  /** `modelView.set(data, at)` */
  datatype Write = Write(at: nat, data: seq<byte>)

  /** `set` throws a RangeError unless the source fits at the offset. */
  predicate Fits(w: Write, len: nat) {
    w.at + |w.data| <= len
  }

  predicate AllFit(ws: seq<Write>, len: nat) {
    forall k :: 0 <= k < |ws| ==> Fits(ws[k], len)
  }

  predicate Covers(w: Write, p: nat) {
    w.at <= p < w.at + |w.data|
  }

  /** The contents of a freshly allocated `ArrayBuffer(n)`. */
  function Zeros(n: nat): (z: seq<byte>)
    ensures |z| == n && forall k :: 0 <= k < n ==> z[k] == 0
  {
    seq(n, _ => 0)
  }

  /** The buffer after one `set`: the written bytes replace those under them, the rest stay. */
  function Paste(buf: seq<byte>, w: Write): (r: seq<byte>)
    requires Fits(w, |buf|)
    ensures |r| == |buf|
    ensures forall p :: 0 <= p < |r| ==> r[p] == if Covers(w, p) then w.data[p - w.at] else buf[p]
  {
    buf[..w.at] + w.data + buf[w.at + |w.data|..]
  }

  /** The buffer after a sequence of `set` calls, in order. */
  function ApplyWrites(buf: seq<byte>, ws: seq<Write>): (r: seq<byte>)
    requires AllFit(ws, |buf|)
    ensures |r| == |buf|
  {
    if ws == [] then buf else Paste(ApplyWrites(buf, ws[..|ws| - 1]), ws[|ws| - 1])
  }

  /** Writing one list after another is writing their concatenation. */
  lemma {:induction false} ApplyWritesAppend(buf: seq<byte>, ws1: seq<Write>, ws2: seq<Write>)
    requires AllFit(ws1, |buf|) && AllFit(ws2, |buf|)
    ensures AllFit(ws1 + ws2, |buf|)
    ensures ApplyWrites(buf, ws1 + ws2) == ApplyWrites(ApplyWrites(buf, ws1), ws2)
    decreases |ws2|
  {
    var all := ws1 + ws2;
    assert AllFit(all, |buf|) by {
      forall k | 0 <= k < |all| ensures Fits(all[k], |buf|) {
        if k < |ws1| { assert all[k] == ws1[k]; } else { assert all[k] == ws2[k - |ws1|]; }
      }
    }
    if ws2 == [] {
      assert all == ws1;
    } else {
      var init := ws2[..|ws2| - 1];
      assert all[..|all| - 1] == ws1 + init;
      assert all[|all| - 1] == ws2[|ws2| - 1];
      ApplyWritesAppend(buf, ws1, init);
    }
  }

  /** A byte covered by exactly one write holds that write's byte. */
  lemma {:induction false} ApplyWritesAt(buf: seq<byte>, ws: seq<Write>, p: nat, j: nat)
    requires AllFit(ws, |buf|) && p < |buf|
    requires j < |ws| && Covers(ws[j], p)
    requires forall k :: 0 <= k < |ws| && k != j ==> !Covers(ws[k], p)
    ensures ApplyWrites(buf, ws)[p] == ws[j].data[p - ws[j].at]
    decreases |ws|
  {
    var init := ws[..|ws| - 1];
    if j < |ws| - 1 {
      ApplyWritesAt(buf, init, p, j);
    }
  }

  // ---------------------------------------------------------------------------
  // Errors, callbacks and the network
  // ---------------------------------------------------------------------------

  datatype LoadError =
    | AlreadyLoading              // '模型正在下载中'
    | SizeRequestFailed(status: nat)
    | SizeUnavailable             // '无法获取模型大小'
    | NetworkFailure              // fetch rejected for a reason other than abort
    | Cancelled                   // '下载已取消'
    | ChunkFetchFailed(status: nat)
    | StoreFailure                // a store request rejected
    | BufferOverflow              // `set` threw a RangeError
    | MetadataMissing             // '模型元数据不存在'
    | MissingChunk(index: nat)    // '分块 ${i} 不存在'

  /** The callbacks a load invokes, in order. */
  datatype Event = OnProgress(fraction: real) | OnComplete(data: seq<byte>) | OnError(error: LoadError)

  /** `loadedChunks / totalChunks` */
  function Fraction(k: nat, n: nat): real
    requires n > 0
  {
    k as real / n as real
  }

  /** The progress callbacks for chunks `from + 1 .. from + count` of `n`. */
  function ProgressRun(from: nat, count: nat, n: nat): seq<Event>
    requires n > 0
  {
    seq(count, k requires 0 <= k < count => OnProgress(Fraction(from + k + 1, n)))
  }

  lemma ProgressRunJoin(from: nat, m1: nat, m2: nat, n: nat)
    requires n > 0
    ensures ProgressRun(from, m1, n) + ProgressRun(from + m1, m2, n) == ProgressRun(from, m1 + m2, n)
  {
  }

  lemma ProgressRunStep(from: nat, m: nat, n: nat)
    requires n > 0
    ensures ProgressRun(from, m, n) + [OnProgress(Fraction(from + m + 1, n))] == ProgressRun(from, m + 1, n)
  {
  }

  /**
   * Within one attempt the reported progress strictly increases, stays in
   * `(0, 1]`, and is exactly 1 only at the callback for the last chunk.
   */
  lemma ProgressMonotone(m: nat, n: nat)
    requires 0 < n && m <= n
    ensures forall a, b :: 0 <= a < b < m ==>
              ProgressRun(0, m, n)[a].fraction < ProgressRun(0, m, n)[b].fraction
    ensures forall k :: 0 <= k < m ==>
              0.0 < ProgressRun(0, m, n)[k].fraction <= 1.0
    ensures forall k :: 0 <= k < m ==> (ProgressRun(0, m, n)[k].fraction == 1.0 <==> k == n - 1)
  {
    var ev := ProgressRun(0, m, n);
    forall a, b | 0 <= a < b < m ensures ev[a].fraction < ev[b].fraction {
      FractionLess(a + 1, b + 1, n);
    }
    forall k | 0 <= k < m ensures 0.0 < ev[k].fraction <= 1.0 && (ev[k].fraction == 1.0 <==> k == n - 1) {
      FractionLess(0, k + 1, n);
      if k + 1 < n { FractionLess(k + 1, n, n); }
    }
  }

  lemma FractionLess(a: nat, b: nat, n: nat)
    requires n > 0 && a < b
    ensures Fraction(a, n) < Fraction(b, n)
    ensures Fraction(n, n) == 1.0
  {
    var x, y, d := a as real, b as real, n as real;
    assert x / d * d == x && y / d * d == y;
  }

  /** What the HEAD probe for the artifact's size returned. */
  datatype HeadReply = HeadNetworkError | HeadResponse(status: nat, contentLength: nat)

  /** What a Range request returned: aborted, failed, or a response with a status and body. */
  datatype RangeReply = RangeAborted | RangeNetworkError | RangeResponse(status: nat, body: seq<byte>)

  /**
   * The network and clock as the loader sees them: the HEAD reply, the latency
   * probe's round trip (`None` when it failed or timed out), the reply to each
   * Range request, the pending-chunk position before which `cancelDownload`
   * takes effect (if it is called during the attempt), and `Date.now()`.
   */
  datatype Network = Network(
    head: HeadReply,
    latency: Option<nat>,
    fetchRange: Span -> RangeReply,
    cancelBefore: Option<nat>,
    now: nat)

  /** `response.ok` */
  predicate HttpOk(status: nat) {
    200 <= status <= 299
  }

  /** The loader's acceptance test `response.ok || response.status === 206`. */
  predicate Accepted(status: nat) {
    HttpOk(status) || status == 206
  }

  /** 206 already is `ok`, so the extra test in the guard admits nothing further. */
  lemma AcceptedIsOk(status: nat)
    ensures Accepted(status) <==> 200 <= status <= 299
  {
  }

  function Body(r: RangeReply): seq<byte> {
    if r.RangeResponse? then r.body else []
  }

  // ---------------------------------------------------------------------------
  // Reading the store
  // ---------------------------------------------------------------------------

  /** `getModelMetadata`: the stored metadata value, with every failure read as `null`. */
  function MetadataView(env: StoreEnv, entries: map<string, Blob>, id: string): Option<Blob> {
    match Lookup(env, entries, MetadataKey(id))
    case Ok(v) => v
    case Err(_) => None
  }

  /** `metadata` is truthy. */
  predicate HasMetadata(mv: Option<Blob>) {
    mv.Some? && Truthy(mv.value)
  }

  /** Fields read off a stored value; anything but a metadata record reads as 0 (`undefined`). */
  function SizeField(b: Blob): nat {
    if b.Record? then b.meta.totalSize else 0
  }

  function ChunksField(b: Blob): nat {
    if b.Record? then b.meta.totalChunks else 0
  }

  function ChunkSizeField(b: Blob): nat {
    if b.Record? then b.meta.chunkSize else 0
  }

  /** `new Uint8Array(value)`: the bytes of a chunk; any other value is array-like of length 0. */
  function BytesOf(b: Blob): seq<byte> {
    if b.Bytes? then b.data else []
  }

  function StoredBytes(entries: map<string, Blob>, key: string): seq<byte> {
    if key in entries then BytesOf(entries[key]) else []
  }

  /**
   * `getModelSize`: the recorded size when metadata with a non-zero size is
   * stored; otherwise the HEAD probe's content length, which fails when the
   * request fails, the status is not ok, or the length is missing or 0.
   */
  function SizeFrom(env: StoreEnv, entries: map<string, Blob>, id: string, head: HeadReply): (r: Result<nat, LoadError>)
    ensures r.Ok? ==> r.value > 0
  {
    var mv := MetadataView(env, entries, id);
    if HasMetadata(mv) && SizeField(mv.value) != 0 then Ok(SizeField(mv.value))
    else match head
      case HeadNetworkError => Err(NetworkFailure)
      case HeadResponse(status, len) =>
        if !HttpOk(status) then Err(SizeRequestFailed(status))
        else if len == 0 then Err(SizeUnavailable)
        else Ok(len)
  }

  /** The indices below `n` whose chunk `hasModel` reports missing, in increasing order. */
  function PendingChunks(env: StoreEnv, entries: map<string, Blob>, id: string, n: nat): seq<nat>
  {
    if n == 0 then []
    else PendingChunks(env, entries, id, n - 1)
         + (if Present(env, entries, ChunkKey(id, n - 1)) then [] else [n - 1])
  }

  /** The indices below `n` whose chunk `hasModel` reports cached, in increasing order. */
  function CachedChunks(env: StoreEnv, entries: map<string, Blob>, id: string, n: nat): seq<nat>
  {
    if n == 0 then []
    else CachedChunks(env, entries, id, n - 1)
         + (if Present(env, entries, ChunkKey(id, n - 1)) then [n - 1] else [])
  }

  /** The pending list holds exactly the missing chunks below `n`, in increasing order. */
  lemma {:induction false} PendingChunksFacts(env: StoreEnv, entries: map<string, Blob>, id: string, n: nat)
    ensures forall k :: 0 <= k < |PendingChunks(env, entries, id, n)| ==>
              PendingChunks(env, entries, id, n)[k] < n
              && !Present(env, entries, ChunkKey(id, PendingChunks(env, entries, id, n)[k]))
    ensures forall i :: 0 <= i < n && !Present(env, entries, ChunkKey(id, i)) ==> i in PendingChunks(env, entries, id, n)
    ensures forall a, b :: 0 <= a < b < |PendingChunks(env, entries, id, n)| ==>
              PendingChunks(env, entries, id, n)[a] < PendingChunks(env, entries, id, n)[b]
  {
    PendingChunksMissing(env, entries, id, n);
    PendingChunksComplete(env, entries, id, n);
    PendingChunksIncreasing(env, entries, id, n);
  }

  lemma {:induction false} PendingChunksMissing(env: StoreEnv, entries: map<string, Blob>, id: string, n: nat)
    ensures forall k :: 0 <= k < |PendingChunks(env, entries, id, n)| ==>
              PendingChunks(env, entries, id, n)[k] < n
              && !Present(env, entries, ChunkKey(id, PendingChunks(env, entries, id, n)[k]))
  {
    if n > 0 {
      PendingChunksMissing(env, entries, id, n - 1);
      var prev := PendingChunks(env, entries, id, n - 1);
      var tail: seq<nat> := if Present(env, entries, ChunkKey(id, n - 1)) then [] else [n - 1];
      var all := prev + tail;
      assert PendingChunks(env, entries, id, n) == all;
      forall k | 0 <= k < |all| ensures all[k] < n && !Present(env, entries, ChunkKey(id, all[k])) {
        if k < |prev| {
          assert all[k] == prev[k];
        } else {
          assert |tail| > 0 && all[k] == n - 1;
        }
      }
    }
  }

  lemma {:induction false} PendingChunksComplete(env: StoreEnv, entries: map<string, Blob>, id: string, n: nat)
    ensures forall i :: 0 <= i < n && !Present(env, entries, ChunkKey(id, i)) ==> i in PendingChunks(env, entries, id, n)
  {
    if n > 0 {
      PendingChunksComplete(env, entries, id, n - 1);
      var prev := PendingChunks(env, entries, id, n - 1);
      var tail: seq<nat> := if Present(env, entries, ChunkKey(id, n - 1)) then [] else [n - 1];
      assert PendingChunks(env, entries, id, n) == prev + tail;
      forall i | 0 <= i < n && !Present(env, entries, ChunkKey(id, i)) ensures i in prev + tail {
        if i < n - 1 {
          assert i in prev;
        } else {
          assert (prev + tail)[|prev|] == i;
        }
      }
    }
  }

  lemma {:induction false} PendingChunksIncreasing(env: StoreEnv, entries: map<string, Blob>, id: string, n: nat)
    ensures forall a, b :: 0 <= a < b < |PendingChunks(env, entries, id, n)| ==>
              PendingChunks(env, entries, id, n)[a] < PendingChunks(env, entries, id, n)[b]
  {
    if n > 0 {
      PendingChunksIncreasing(env, entries, id, n - 1);
      PendingChunksMissing(env, entries, id, n - 1);
      var prev := PendingChunks(env, entries, id, n - 1);
      var tail: seq<nat> := if Present(env, entries, ChunkKey(id, n - 1)) then [] else [n - 1];
      var all := prev + tail;
      assert PendingChunks(env, entries, id, n) == all;
      forall a, b | 0 <= a < b < |all| ensures all[a] < all[b] {
        if b < |prev| {
          assert all[a] == prev[a] && all[b] == prev[b];
        } else {
          assert all[a] == prev[a] && prev[a] < n - 1;
        }
      }
    }
  }

  /** The cached list holds exactly the present chunks below `n`, in increasing order. */
  lemma {:induction false} CachedChunksFacts(env: StoreEnv, entries: map<string, Blob>, id: string, n: nat)
    ensures forall k :: 0 <= k < |CachedChunks(env, entries, id, n)| ==>
              CachedChunks(env, entries, id, n)[k] < n
              && Present(env, entries, ChunkKey(id, CachedChunks(env, entries, id, n)[k]))
    ensures forall i :: 0 <= i < n && Present(env, entries, ChunkKey(id, i)) ==> i in CachedChunks(env, entries, id, n)
    ensures forall a, b :: 0 <= a < b < |CachedChunks(env, entries, id, n)| ==>
              CachedChunks(env, entries, id, n)[a] < CachedChunks(env, entries, id, n)[b]
  {
    if n > 0 {
      CachedChunksFacts(env, entries, id, n - 1);
      var prev := CachedChunks(env, entries, id, n - 1);
      var tail: seq<nat> := if Present(env, entries, ChunkKey(id, n - 1)) then [n - 1] else [];
      var all := prev + tail;
      assert CachedChunks(env, entries, id, n) == all;
      forall k | 0 <= k < |all| ensures all[k] < n && Present(env, entries, ChunkKey(id, all[k])) {
        if k < |prev| {
          assert all[k] == prev[k];
          assert Present(env, entries, ChunkKey(id, prev[k]));
        } else {
          assert |tail| > 0 && all[k] == n - 1;
          assert Present(env, entries, ChunkKey(id, n - 1));
        }
      }
      forall a, b | 0 <= a < b < |all| ensures all[a] < all[b] {
        if b < |prev| {
          assert all[a] == prev[a] && all[b] == prev[b];
        } else {
          assert all[a] == prev[a];
        }
      }
      forall i | 0 <= i < n && Present(env, entries, ChunkKey(id, i)) ensures i in prev + tail {
        if i < n - 1 {
          assert i in prev;
        } else {
          assert (prev + tail)[|prev|] == i;
        }
      }
    }
  }

  /** Every chunk is either cached or pending, so the two counts add up to `totalChunks`. */
  lemma {:induction false} ChunkCounts(env: StoreEnv, entries: map<string, Blob>, id: string, n: nat)
    ensures |PendingChunks(env, entries, id, n)| + |CachedChunks(env, entries, id, n)| == n
  {
    if n > 0 {
      ChunkCounts(env, entries, id, n - 1);
    }
  }

  /** The Range request for chunk `i`, under its store key. */
  datatype Task = Task(key: string, span: Span)

  function TaskFor(id: string, cs: nat, total: nat, i: nat): Task
    requires cs > 0 && total > 0
  {
    Task(ChunkKey(id, i), ChunkSpan(i, cs, total))
  }

  function TasksFor(id: string, cs: nat, total: nat, idxs: seq<nat>): seq<Task>
    requires cs > 0 && total > 0
  {
    seq(|idxs|, k requires 0 <= k < |idxs| => TaskFor(id, cs, total, idxs[k]))
  }

  function Spans(ts: seq<Task>): seq<Span>
  {
    seq(|ts|, k requires 0 <= k < |ts| => ts[k].span)
  }

  // ---------------------------------------------------------------------------
  // Scanning the cache, then fetching what is missing
  // ---------------------------------------------------------------------------

  /** Copying cached chunk `i` (if it is cached) into the buffer does not throw. */
  predicate CachedFits(env: StoreEnv, entries: map<string, Blob>, id: string, cs: nat, total: nat, i: nat) {
    !Present(env, entries, ChunkKey(id, i)) || i * cs + |StoredBytes(entries, ChunkKey(id, i))| <= total
  }

  /** Where the scan of cached chunks `from .. n-1` stops: the first cached chunk that does not fit, or `n`. */
  function ScanStop(env: StoreEnv, entries: map<string, Blob>, id: string, cs: nat, total: nat, n: nat, from: nat): (r: nat)
    requires from <= n
    ensures from <= r <= n
    ensures forall i :: from <= i < r ==> CachedFits(env, entries, id, cs, total, i)
    ensures r < n ==> !CachedFits(env, entries, id, cs, total, r)
    decreases n - from
  {
    if from == n then n
    else if !CachedFits(env, entries, id, cs, total, from) then from
    else ScanStop(env, entries, id, cs, total, n, from + 1)
  }

  /** Every chunk before `k` fits, so the scan's stop is found by scanning from `k`. */
  lemma {:induction false} ScanStopSkip(env: StoreEnv, entries: map<string, Blob>, id: string, cs: nat, total: nat, n: nat, k: nat)
    requires k <= n
    requires forall j :: 0 <= j < k ==> CachedFits(env, entries, id, cs, total, j)
    ensures ScanStop(env, entries, id, cs, total, n, 0) == ScanStop(env, entries, id, cs, total, n, k)
    decreases k
  {
    if k > 0 {
      ScanStopSkip(env, entries, id, cs, total, n, k - 1);
    }
  }

  /** The `set` calls for the cached chunks below `n`, in index order. */
  function CachedWrites(entries: map<string, Blob>, id: string, cs: nat, idxs: seq<nat>): seq<Write>
  {
    seq(|idxs|, k requires 0 <= k < |idxs| => Write(idxs[k] * cs, StoredBytes(entries, ChunkKey(id, idxs[k]))))
  }

  /** Why fetching pending task `k` fails, or `None` when it is copied into the buffer. */
  function StepError(env: StoreEnv, net: Network, total: nat, k: nat, t: Task): Option<LoadError> {
    if net.cancelBefore == Some(k) then Some(Cancelled)
    else match net.fetchRange(t.span)
      case RangeAborted => Some(Cancelled)
      case RangeNetworkError => Some(NetworkFailure)
      case RangeResponse(status, body) =>
        if !Accepted(status) then Some(ChunkFetchFailed(status))
        else if env.canOpen && t.key in env.brokenKeys then Some(StoreFailure)
        else if t.span.start + |body| > total then Some(BufferOverflow)
        else None
  }

  /** The first pending task at or after `from` that fails, or `|ts|` when none does. */
  function FirstStop(env: StoreEnv, net: Network, total: nat, ts: seq<Task>, from: nat): (r: nat)
    requires from <= |ts|
    ensures from <= r <= |ts|
    ensures forall k :: from <= k < r ==> StepError(env, net, total, k, ts[k]).None?
    ensures r < |ts| ==> StepError(env, net, total, r, ts[r]).Some?
    decreases |ts| - from
  {
    if from == |ts| then from
    else if StepError(env, net, total, from, ts[from]).Some? then from
    else FirstStop(env, net, total, ts, from + 1)
  }

  /** Every task before `k` succeeds, so the first failure is found by searching from `k`. */
  lemma {:induction false} FirstStopSkip(env: StoreEnv, net: Network, total: nat, ts: seq<Task>, k: nat)
    requires k <= |ts|
    requires forall j :: 0 <= j < k ==> StepError(env, net, total, j, ts[j]).None?
    ensures FirstStop(env, net, total, ts, 0) == FirstStop(env, net, total, ts, k)
    decreases k
  {
    if k > 0 {
      FirstStopSkip(env, net, total, ts, k - 1);
    }
  }

  /** The `set` call for a fetched task. */
  function FetchWrite(net: Network, t: Task): Write {
    Write(t.span.start, Body(net.fetchRange(t.span)))
  }

  function FetchWrites(net: Network, ts: seq<Task>): seq<Write>
  {
    seq(|ts|, k requires 0 <= k < |ts| => FetchWrite(net, ts[k]))
  }

  /** The store after `saveModel(task.chunkId, body)` for each task in turn. */
  function SaveFetched(env: StoreEnv, entries: map<string, Blob>, net: Network, ts: seq<Task>): map<string, Blob> {
    if ts == [] then entries
    else AfterPut(env, SaveFetched(env, entries, net, ts[..|ts| - 1]), ts[|ts| - 1].key,
                  Bytes(Body(net.fetchRange(ts[|ts| - 1].span))))
  }

  /** The Range requests issued before stopping at task `m` (the failing task's own, unless cancelled first). */
  function IssuedRequests(net: Network, ts: seq<Task>, m: nat): seq<Span>
    requires m <= |ts|
  {
    Spans(ts[..m]) + (if m < |ts| && net.cancelBefore != Some(m) then [ts[m].span] else [])
  }

  /**
   * How many fetched chunks end up saved when the download stops at task `m`:
   * a chunk is saved before it is copied, so a chunk whose copy overflows is
   * saved too.
   */
  function SavedCount(env: StoreEnv, net: Network, total: nat, ts: seq<Task>, m: nat): nat
    requires m <= |ts|
  {
    if m < |ts| && StepError(env, net, total, m, ts[m]) == Some(BufferOverflow) then m + 1 else m
  }

  /** Saving fetched chunks never removes a key and never touches a key outside the tasks. */
  lemma {:induction false} SaveFetchedKeeps(env: StoreEnv, entries: map<string, Blob>, net: Network, ts: seq<Task>, key: string)
    ensures key in entries ==> key in SaveFetched(env, entries, net, ts)
    ensures (forall k :: 0 <= k < |ts| ==> ts[k].key != key) ==>
              (key in SaveFetched(env, entries, net, ts) <==> key in entries)
              && (key in entries ==> SaveFetched(env, entries, net, ts)[key] == entries[key])
    decreases |ts|
  {
    if ts != [] {
      SaveFetchedKeeps(env, entries, net, ts[..|ts| - 1], key);
    }
  }

  // ---------------------------------------------------------------------------
  // Completeness, reload from cache, clearing
  // ---------------------------------------------------------------------------

  /**
   * `isModelFullyCached`: metadata exists with a non-zero `totalChunks` and
   * every chunk below it is reported present.
   */
  predicate FullyCached(env: StoreEnv, entries: map<string, Blob>, id: string) {
    var mv := MetadataView(env, entries, id);
    HasMetadata(mv) && ChunksField(mv.value) != 0
    && forall i :: 0 <= i < ChunksField(mv.value) ==> Present(env, entries, ChunkKey(id, i))
  }

  /** Why reading chunk `i` back from the store fails in `loadModelFromCache`, or `None`. */
  function ReloadError(env: StoreEnv, entries: map<string, Blob>, id: string, cs: nat, total: nat, i: nat): Option<LoadError> {
    match Lookup(env, entries, ChunkKey(id, i))
    case Err(_) => Some(StoreFailure)
    case Ok(None) => Some(MissingChunk(i))
    case Ok(Some(b)) =>
      if !Truthy(b) then Some(MissingChunk(i))
      else if i * cs + |BytesOf(b)| > total then Some(BufferOverflow)
      else None
  }

  /** The first chunk at or after `from` that cannot be reloaded, or `n`. */
  function ReloadStop(env: StoreEnv, entries: map<string, Blob>, id: string, cs: nat, total: nat, n: nat, from: nat): (r: nat)
    requires from <= n
    ensures from <= r <= n
    ensures forall i :: from <= i < r ==> ReloadError(env, entries, id, cs, total, i).None?
    ensures r < n ==> ReloadError(env, entries, id, cs, total, r).Some?
    decreases n - from
  {
    if from == n then n
    else if ReloadError(env, entries, id, cs, total, from).Some? then from
    else ReloadStop(env, entries, id, cs, total, n, from + 1)
  }

  lemma {:induction false} ReloadStopSkip(env: StoreEnv, entries: map<string, Blob>, id: string, cs: nat, total: nat, n: nat, k: nat)
    requires k <= n
    requires forall j :: 0 <= j < k ==> ReloadError(env, entries, id, cs, total, j).None?
    ensures ReloadStop(env, entries, id, cs, total, n, 0) == ReloadStop(env, entries, id, cs, total, n, k)
    decreases k
  {
    if k > 0 {
      ReloadStopSkip(env, entries, id, cs, total, n, k - 1);
    }
  }

  /** The `set` calls of a reload: chunk `i` at `i * metadata.chunkSize`. */
  function ReloadWrites(entries: map<string, Blob>, id: string, cs: nat, m: nat): seq<Write>
  {
    seq(m, i requires 0 <= i < m => Write(i * cs, StoredBytes(entries, ChunkKey(id, i))))
  }

  /**
   * On a fully cached artifact a reload fails only if a stored chunk is too
   * long for the buffer: never for missing metadata or a missing chunk.
   */
  lemma FullyCachedReloads(env: StoreEnv, entries: map<string, Blob>, id: string, i: nat)
    requires FullyCached(env, entries, id)
    requires i < ChunksField(MetadataView(env, entries, id).value)
    ensures var b := MetadataView(env, entries, id).value;
            ReloadError(env, entries, id, ChunkSizeField(b), SizeField(b), i) in {None, Some(BufferOverflow)}
  {
  }

  /** The chunk keys below `n`. */
  function ChunkKeysBelow(id: string, n: nat): set<string> {
    set i: nat | i < n :: ChunkKey(id, i)
  }

  /** The first chunk at or after `from` whose delete request fails, or `n`. */
  function ClearStop(env: StoreEnv, id: string, n: nat, from: nat): (r: nat)
    requires from <= n
    ensures from <= r <= n
    ensures forall i :: from <= i < r ==> ChunkKey(id, i) !in env.brokenKeys
    ensures r < n ==> ChunkKey(id, r) in env.brokenKeys
    decreases n - from
  {
    if from == n then n
    else if ChunkKey(id, from) in env.brokenKeys then from
    else ClearStop(env, id, n, from + 1)
  }

  lemma {:induction false} ClearStopSkip(env: StoreEnv, id: string, n: nat, k: nat)
    requires k <= n
    requires forall j :: 0 <= j < k ==> ChunkKey(id, j) !in env.brokenKeys
    ensures ClearStop(env, id, n, 0) == ClearStop(env, id, n, k)
    decreases k
  {
    if k > 0 {
      ClearStopSkip(env, id, n, k - 1);
    }
  }

  /** Removing the chunk keys below `n` leaves every other key, in particular the metadata key. */
  lemma ClearKeepsOthers(entries: map<string, Blob>, id: string, n: nat, key: string)
    requires key !in ChunkKeysBelow(id, n) && key in entries
    ensures key in entries - ChunkKeysBelow(id, n)
    ensures (entries - ChunkKeysBelow(id, n))[key] == entries[key]
  {
  }

  lemma MetadataKeyNotChunkKey(id: string, n: nat)
    ensures MetadataKey(id) !in ChunkKeysBelow(id, n)
  {
    forall i: nat | i < n ensures ChunkKey(id, i) != MetadataKey(id) {
      ChunkKeyNotMetadataKey(id, i);
    }
  }
}
