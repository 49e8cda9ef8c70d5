/**
 * The choice of inference backend (`ModelServiceFactory`).
 *
 * The backends themselves are not modelled; a `Backend` names the service
 * class the factory instantiates and, for WebLLM, the `useWebGPU` option it
 * adds to the caller's options.
 */
module ModelServiceFactory {
  import opened Wrappers
  import opened Compatibility

  /**
   * The service the factory constructs. `WebLLM(None)` passes the caller's
   * options through untouched; `WebLLM(Some(b))` overrides `useWebGPU` with b.
   */
  datatype Backend =
    | WebLLM(useWebGPU: Option<bool>)
    | WebGPUService
    | WebGLService
    | WasmService
    | RemoteService

  /** The `switch (options.forceService)`: the five recognised names. */
  function Forced(s: string): (r: Option<Backend>)
    ensures r.Some? <==> s in {"webllm", "webgpu", "webgl", "wasm", "remote"}
  {
    if s == "webllm" then Some(WebLLM(None))
    else if s == "webgpu" then Some(WebGPUService)
    else if s == "webgl" then Some(WebGLService)
    else if s == "wasm" then Some(WasmService)
    else if s == "remote" then Some(RemoteService)
    else None
  }

  /** The backend the automatic choice builds for each recommended strategy. */
  function StrategyBackend(s: Strategy): Backend {
    match s
    case WebGPUStrategy => WebLLM(Some(true))
    case WebGLStrategy => WebLLM(Some(false))
    case WasmCpuStrategy => WasmService
    case RemoteStrategy => RemoteService
  }

  /** The automatic choice, written as the factory's own chain of tests. */
  function AutoBackend(r: Report): Backend {
    if r.webgpu then WebLLM(Some(true))
    else if r.webgl then WebLLM(Some(false))
    else if r.performance.tier != Low then WasmService
    else if r.isMobile || r.performance.tier == Low then RemoteService
    else RemoteService
  }

  /**
   * `createModelService({forceService})`: the compatibility report is computed
   * first, so a failing browser probe rejects even when a service is forced;
   * a forced name that is empty or not recognised falls through to the
   * automatic choice.
   */
  function CreateModelService(forceService: Option<string>, probes: Probes): (r: Result<Backend, ProbeError>)
    ensures r.Ok? <==> FullReport(probes).Ok?
  {
    match FullReport(probes)
    case Err(e) => Err(e)
    case Ok(report) =>
      if forceService.Some? && |forceService.value| > 0 && Forced(forceService.value).Some? then
        Ok(Forced(forceService.value).value)
      else
        Ok(AutoBackend(report))
  }

  /** A recognised forced name selects its service whatever the probes say. */
  lemma ForcedServiceWins(s: string, p: Probes)
    requires FullReport(p).Ok? && Forced(s).Some?
    ensures CreateModelService(Some(s), p) == Ok(Forced(s).value)
  {
  }

  /** A failing report rejects the creation, forced or not, with the report's error. */
  lemma ReportFailureFails(force: Option<string>, p: Probes)
    requires FullReport(p).Err?
    ensures CreateModelService(force, p) == Err(FullReport(p).error)
  {
  }

  /** An empty or unrecognised name (such as "auto") is the same as no name at all. */
  lemma UnknownForceFallsThrough(s: string, p: Probes)
    requires Forced(s).None?
    ensures CreateModelService(Some(s), p) == CreateModelService(None, p)
    ensures CreateModelService(Some(""), p) == CreateModelService(None, p)
  {
  }

  /**
   * The automatic choice agrees with the strategy the report recommends, so
   * the mobile test inside it never changes the outcome.
   */
  lemma {:induction false} AutoMatchesStrategy(r: Report)
    requires r.strategy == Recommend(r.webgpu, r.webgl, r.performance.tier)
    ensures AutoBackend(r) == StrategyBackend(r.strategy)
    ensures AutoBackend(r.(isMobile := !r.isMobile)) == AutoBackend(r)
  {
    RecommendPriority(r.webgpu, r.webgl, r.performance.tier);
  }

  /** Without a forced name, the factory builds the backend for the report's strategy. */
  lemma {:induction false} AutoFollowsReport(p: Probes)
    requires FullReport(p).Ok?
    ensures CreateModelService(None, p) == Ok(StrategyBackend(FullReport(p).value.strategy))
  {
    ReportStrategy(p);
    AutoMatchesStrategy(FullReport(p).value);
  }

  /** Different strategies lead to different backends. */
  lemma StrategyBackendInjective(s: Strategy, t: Strategy)
    ensures StrategyBackend(s) == StrategyBackend(t) <==> s == t
  {
  }

  /**
   * Two browsers whose GPU probes and hardware hints agree get the same
   * backend, whatever their user agents (mobile or not).
   */
  lemma {:induction false} AutoIgnoresUserAgent(p: Probes, ua: string)
    requires FullReport(p).Ok? && GetBrowserInfo(ua).Ok?
    ensures CreateModelService(None, p.(userAgent := ua)) == CreateModelService(None, p)
  {
    AutoFollowsReport(p);
    AutoFollowsReport(p.(userAgent := ua));
    ReportStrategy(p);
  }

  /** An entry of `getModelServiceOptions`. */
  datatype ServiceOption = ServiceOption(id: string, name: string)

  /** `getModelServiceOptions`: the choices offered to the user, "auto" first. */
  function ServiceOptions(): (r: seq<ServiceOption>)
    ensures |r| == 6 && r[0].id == "auto"
  {
    [ ServiceOption("auto", "自动选择最佳方式"),
      ServiceOption("webllm", "WebLLM（浏览器本地运行）"),
      ServiceOption("webgpu", "WebGPU加速（高性能）"),
      ServiceOption("webgl", "WebGL加速（兼容性好）"),
      ServiceOption("wasm", "WASM CPU执行（通用）"),
      ServiceOption("remote", "远程API（低性能设备）") ]
  }

  /**
   * Every offered id means something to the factory: "auto" is the automatic
   * choice, each other id forces its own service, and no two ids force the
   * same one.
   */
  lemma {:induction false} OptionsMatchFactory(p: Probes)
    requires FullReport(p).Ok?
    ensures CreateModelService(Some(ServiceOptions()[0].id), p) == CreateModelService(None, p)
    ensures forall i :: 1 <= i < |ServiceOptions()| ==> Forced(ServiceOptions()[i].id).Some?
    ensures forall i, j :: 1 <= i < j < |ServiceOptions()| ==>
              Forced(ServiceOptions()[i].id) != Forced(ServiceOptions()[j].id)
  {
    var o := ServiceOptions();
    assert Forced(o[0].id).None?;
    UnknownForceFallsThrough(o[0].id, p);
  }
}
