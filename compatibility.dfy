/**
 * `CompatibilityService`: the device performance tier, the browser's name
 * and version read off the user agent, the mobile test, and the execution
 * strategy recommended from the WebGPU and WebGL probe results.
 *
 * The browser probes are inputs: whether WebGPU yielded an adapter and a
 * device, whether a WebGL context could be created, the
 * `navigator.deviceMemory` and `navigator.hardwareConcurrency` hints
 * (`None` when absent), and the user-agent string.
 */
module Compatibility {
  import opened Wrappers
  import opened Strings

  // ---------------------------------------------------------------------------
  // Device performance
  // ---------------------------------------------------------------------------

  /** `navigator.deviceMemory` is a non-negative number of gigabytes (0.25, 0.5, 1, ...). */
  type Gigabytes = r: real | 0.0 <= r

  datatype Tier = Low | Medium | High

  function Rank(t: Tier): nat {
    match t
    case Low => 0
    case Medium => 1
    case High => 2
  }

  datatype DevicePerformance = DevicePerformance(memory: real, cores: nat, score: real, tier: Tier)

  /** The tier thresholds: `high` from score 8, `medium` from 4, `low` below. */
  function TierOf(score: real): Tier {
    if score >= 8.0 then High else if score >= 4.0 then Medium else Low
  }

  /** `checkDevicePerformance`: a hint that is absent or 0 reads as 4 (`hint || 4`). */
  function CheckDevicePerformance(deviceMemory: Option<Gigabytes>, hardwareConcurrency: Option<nat>): (p: DevicePerformance)
    ensures p.memory > 0.0 && p.cores > 0
    ensures p.memory == (if deviceMemory.Some? && deviceMemory.value != 0.0 then deviceMemory.value else 4.0)
    ensures p.cores == (if hardwareConcurrency.Some? && hardwareConcurrency.value != 0 then hardwareConcurrency.value else 4)
  {
    var memory: real := if deviceMemory.Some? && deviceMemory.value != 0.0 then deviceMemory.value else 4.0;
    var cores: nat := if hardwareConcurrency.Some? && hardwareConcurrency.value != 0 then hardwareConcurrency.value else 4;
    var score := memory * cores as real / 4.0;
    DevicePerformance(memory, cores, score, TierOf(score))
  }

  /** Without hints, or with hints of 0, the device is assumed to have 4 GB and 4 cores: score 4, tier medium. */
  lemma PerformanceDefaults(m: Option<Gigabytes>, c: Option<nat>)
    requires m.None? || m == Some(0.0)
    requires c.None? || c == Some(0)
    ensures CheckDevicePerformance(m, c) == DevicePerformance(4.0, 4, 4.0, Medium)
  {
  }

  /** The tier is high exactly when memory × cores reaches 32, medium when it reaches 16. */
  lemma TierThresholds(m: Gigabytes, c: nat)
    requires m > 0.0 && c > 0
    ensures var t := CheckDevicePerformance(Some(m), Some(c)).tier;
            (t == High <==> m * c as real >= 32.0)
            && (t == Medium <==> 16.0 <= m * c as real < 32.0)
            && (t == Low <==> m * c as real < 16.0)
  {
  }

  /** More memory or more cores never lowers the tier. */
  lemma TierMonotone(m1: Gigabytes, m2: Gigabytes, c1: nat, c2: nat)
    requires 0.0 < m1 <= m2 && 0 < c1 <= c2
    ensures Rank(CheckDevicePerformance(Some(m1), Some(c1)).tier) <= Rank(CheckDevicePerformance(Some(m2), Some(c2)).tier)
  {
    var x1, x2 := c1 as real, c2 as real;
    var p1, p2 := m1 * x1, m2 * x2;
    assert p1 <= m2 * x1 <= p2;
    var s1, s2 := p1 / 4.0, p2 / 4.0;
    assert s1 * 4.0 == p1 && s2 * 4.0 == p2;
    assert s1 <= s2;
    assert CheckDevicePerformance(Some(m1), Some(c1)).tier == TierOf(s1);
    assert CheckDevicePerformance(Some(m2), Some(c2)).tier == TierOf(s2);
  }

  /** Quarter-gigabyte devices: 0.5 GB with 8 cores scores 1 and is low; 8 GB with 4 cores scores 8 and is high. */
  lemma FractionalMemoryTiers()
    ensures CheckDevicePerformance(Some(0.5), Some(8)).tier == Low
    ensures CheckDevicePerformance(Some(0.5), Some(8)).score == 1.0
    ensures CheckDevicePerformance(Some(8.0), Some(4)).tier == High
  {
  }

  // ---------------------------------------------------------------------------
  // Browser name and version
  // ---------------------------------------------------------------------------

  predicate IsVersionChar(c: char) {
    '0' <= c <= '9' || c == '.'
  }

  /** The longest prefix of `s` made of digits and dots (`[0-9.]+` taken greedily). */
  function VersionRun(s: string): (r: string)
    ensures |r| <= |s| && r == s[..|r|]
    ensures forall k :: 0 <= k < |r| ==> IsVersionChar(r[k])
    ensures |r| < |s| ==> !IsVersionChar(s[|r|])
    decreases |s|
  {
    if |s| == 0 || !IsVersionChar(s[0]) then ""
    else [s[0]] + VersionRun(s[1..])
  }

  /**
   * `s.match(/<tag>([0-9.]+)/)[1]` where `tag` is e.g. `Chrome/`: the version
   * after the leftmost `tag` followed by at least one digit or dot; `None`
   * when the regular expression does not match.
   */
  function MatchVersion(s: string, tag: string): (r: Option<string>)
    ensures r.Some? ==> |r.value| > 0 && Contains(s, tag + r.value)
    decreases |s|
  {
    if StartsWith(s, tag) && |tag| < |s| && IsVersionChar(s[|tag|]) then
      var v := VersionRun(s[|tag|..]);
      assert s[..|tag + v|] == tag + v;
      Some(v)
    else if |s| == 0 then None
    else
      var r := MatchVersion(s[1..], tag);
      if r.Some? then
        ContainsAfterPrefix([s[0]], s[1..], tag + r.value);
        assert [s[0]] + s[1..] == s;
        r
      else r
  }

  /** `/<tag>([0-9.]+)/` can match at position `i`: the tag starts there and a digit or dot follows it. */
  predicate MatchAt(s: string, tag: string, i: nat) {
    i + |tag| < |s| && StartsWith(s[i..], tag) && IsVersionChar(s[i + |tag|])
  }

  /** Dropping the first character moves every match position back by one. */
  lemma MatchAtTail(s: string, tag: string, i: nat)
    requires |s| > 0
    ensures MatchAt(s[1..], tag, i) <==> MatchAt(s, tag, i + 1)
  {
    if i + 1 + |tag| < |s| {
      assert s[1..][i..] == s[i + 1..];
    }
  }

  /**
   * `MatchVersion` is the regular expression's match: it finds nothing
   * exactly when no position matches, and otherwise captures the whole
   * digit-and-dot run after the leftmost matching position.
   */
  lemma {:induction false} MatchVersionIsLeftmost(s: string, tag: string)
    ensures MatchVersion(s, tag).None? <==> forall i: nat :: i <= |s| ==> !MatchAt(s, tag, i)
    ensures MatchVersion(s, tag).Some? ==>
              exists i: nat :: i <= |s| && MatchAt(s, tag, i) && (forall j: nat :: j < i ==> !MatchAt(s, tag, j))
                               && MatchVersion(s, tag).value == VersionRun(s[i + |tag|..])
    decreases |s|
  {
    assert s[0..] == s;
    if MatchAt(s, tag, 0) {
      assert MatchVersion(s, tag) == Some(VersionRun(s[|tag|..]));
    } else if |s| == 0 {
    } else {
      MatchVersionIsLeftmost(s[1..], tag);
      assert MatchVersion(s, tag) == MatchVersion(s[1..], tag);
      forall i: nat | 1 <= i <= |s|
        ensures MatchAt(s, tag, i) <==> MatchAt(s[1..], tag, i - 1)
      {
        MatchAtTail(s, tag, i - 1);
      }
      if MatchVersion(s, tag).Some? {
        var i: nat :| i <= |s[1..]| && MatchAt(s[1..], tag, i) && (forall j: nat :: j < i ==> !MatchAt(s[1..], tag, j))
                      && MatchVersion(s[1..], tag).value == VersionRun(s[1..][i + |tag|..]);
        assert s[1..][i + |tag|..] == s[i + 1 + |tag|..];
        assert MatchAt(s, tag, i + 1);
      }
    }
  }

  datatype BrowserInfo = BrowserInfo(name: string, version: string)

  /** The regular expression found no version, so indexing its `null` result throws a TypeError. */
  datatype ProbeError = VersionMissing(browser: string)

  function Named(name: string, version: Option<string>): Result<BrowserInfo, ProbeError> {
    if version.Some? then Ok(BrowserInfo(name, version.value)) else Err(VersionMissing(name))
  }

  /** The text before the version in a browser's pattern: `Edg/` for Edge, `<name>/` otherwise. */
  function VersionTag(name: string): string {
    if name == "Edge" then "Edg/" else name + "/"
  }

  /** `getBrowserInfo`: Chrome (unless the agent mentions Edg), then Edge, Firefox, Safari, else unknown. */
  function GetBrowserInfo(ua: string): (r: Result<BrowserInfo, ProbeError>)
    ensures r.Ok? ==> r.value.name in {"Chrome", "Edge", "Firefox", "Safari", "未知"}
                      && (r.value.name != "未知" <==> |r.value.version| > 0)
    ensures r.Err? ==> r.error.browser in {"Chrome", "Edge", "Firefox", "Safari"}
  {
    if Contains(ua, "Chrome") && !Contains(ua, "Edg") then Named("Chrome", MatchVersion(ua, "Chrome/"))
    else if Contains(ua, "Edg") then Named("Edge", MatchVersion(ua, "Edg/"))
    else if Contains(ua, "Firefox") then Named("Firefox", MatchVersion(ua, "Firefox/"))
    else if Contains(ua, "Safari") then Named("Safari", MatchVersion(ua, "Safari/"))
    else Ok(BrowserInfo("未知", ""))
  }

  /**
   * The classification, test by test: an agent naming Edg is never Chrome,
   * one naming Chrome but not Edg is Chrome; of the rest, one naming Firefox
   * is Firefox, then one naming Safari is Safari, and one naming none of the
   * four is unknown with an empty version. The call throws exactly when the
   * chosen browser's `<name>/<version>` pattern finds no version, and every
   * recognised browser comes with the non-empty version its agent carries.
   */
  lemma BrowserClassification(ua: string)
    ensures Contains(ua, "Edg") ==>
              GetBrowserInfo(ua) == Named("Edge", MatchVersion(ua, "Edg/"))
    ensures Contains(ua, "Chrome") && !Contains(ua, "Edg") ==>
              GetBrowserInfo(ua) == Named("Chrome", MatchVersion(ua, "Chrome/"))
    ensures !Contains(ua, "Chrome") && !Contains(ua, "Edg") && Contains(ua, "Firefox") ==>
              GetBrowserInfo(ua) == Named("Firefox", MatchVersion(ua, "Firefox/"))
    ensures !Contains(ua, "Chrome") && !Contains(ua, "Edg") && !Contains(ua, "Firefox") && Contains(ua, "Safari") ==>
              GetBrowserInfo(ua) == Named("Safari", MatchVersion(ua, "Safari/"))
    ensures GetBrowserInfo(ua).Err? ==>
              GetBrowserInfo(ua).error.browser in {"Chrome", "Edge", "Firefox", "Safari"}
              && MatchVersion(ua, VersionTag(GetBrowserInfo(ua).error.browser)).None?
    ensures GetBrowserInfo(ua).Ok? && GetBrowserInfo(ua).value.name != "未知" ==>
              MatchVersion(ua, VersionTag(GetBrowserInfo(ua).value.name)) == Some(GetBrowserInfo(ua).value.version)
    ensures !Contains(ua, "Chrome") && !Contains(ua, "Edg") && !Contains(ua, "Firefox") && !Contains(ua, "Safari") ==>
              GetBrowserInfo(ua) == Ok(BrowserInfo("未知", ""))
    ensures GetBrowserInfo(ua).Ok? ==>
              GetBrowserInfo(ua).value.name in {"Chrome", "Edge", "Firefox", "Safari", "未知"}
              && (GetBrowserInfo(ua).value.name != "未知" <==> |GetBrowserInfo(ua).value.version| > 0)
  {
    assert VersionTag("Chrome") == "Chrome/";
    assert VersionTag("Firefox") == "Firefox/";
    assert VersionTag("Safari") == "Safari/";
  }

  /** An agent naming both Edg and Chrome is Edge: the Chrome test excludes Edg before the Edge test runs. */
  lemma EdgeAgentIsEdge()
    ensures GetBrowserInfo("Edg/1 Chrome/2") == Ok(BrowserInfo("Edge", "1"))
  {
    var ua := "Edg/1 Chrome/2";
    assert StartsWith(ua, "Edg");
    assert ua[6..][..6] == "Chrome";
    assert StartsWith(ua[6..], "Chrome");
    ContainsAfterPrefix(ua[..6], ua[6..], "Chrome");
    assert ua[..6] + ua[6..] == ua;
    assert ua[4..] == "1 Chrome/2";
    assert VersionRun(ua[4..]) == "1";
  }

  // ---------------------------------------------------------------------------
  // Mobile test
  // ---------------------------------------------------------------------------

  /** ASCII lower-casing: a case-insensitive regular expression folds only ASCII letters onto ASCII letters. */
  function LowerChar(c: char): char {
    if 'A' <= c <= 'Z' then (c as int + 32) as char else c
  }

  function Lower(s: string): (r: string)
    ensures |r| == |s| && forall k :: 0 <= k < |s| ==> r[k] == LowerChar(s[k])
  {
    seq(|s|, k requires 0 <= k < |s| => LowerChar(s[k]))
  }

  /** The tokens of `/Android|webOS|iPhone|iPad|iPod|BlackBerry|IEMobile|Opera Mini/i`, lower-cased. */
  const MobileTokens: seq<string> := ["android", "webos", "iphone", "ipad", "ipod", "blackberry", "iemobile", "opera mini"]

  /** `isMobileDevice` */
  predicate IsMobile(ua: string) {
    exists k :: 0 <= k < |MobileTokens| && Contains(Lower(ua), MobileTokens[k])
  }

  lemma LowerIdempotent(s: string)
    ensures Lower(Lower(s)) == Lower(s)
  {
  }

  /** Lower-casing preserves an occurrence. */
  lemma LowerContains(s: string, w: string)
    requires Contains(s, w)
    ensures Contains(Lower(s), Lower(w))
  {
    ContainsIff(s, w);
    var i :| 0 <= i <= |s| && StartsWith(s[i..], w);
    assert Lower(s)[i..][..|w|] == Lower(w);
    assert StartsWith(Lower(s)[i..], Lower(w));
    ContainsIff(Lower(s), Lower(w));
  }

  /** The test ignores case, and any agent naming one of the tokens in any case is mobile. */
  lemma MobileIgnoresCase(ua: string, k: nat)
    requires k < |MobileTokens|
    ensures IsMobile(Lower(ua)) == IsMobile(ua)
    ensures Contains(Lower(ua), MobileTokens[k]) ==> IsMobile(ua)
  {
    LowerIdempotent(ua);
  }

  /** `iPhone` in the agent makes it mobile. */
  lemma IPhoneIsMobile(ua: string)
    requires Contains(ua, "iPhone")
    ensures IsMobile(ua)
  {
    LowerContains(ua, "iPhone");
    assert Lower("iPhone") == MobileTokens[2];
  }

  // ---------------------------------------------------------------------------
  // The full report and the recommended strategy
  // ---------------------------------------------------------------------------

  datatype Strategy = WebGPUStrategy | WebGLStrategy | WasmCpuStrategy | RemoteStrategy

  /** The `recommendedStrategy` string. */
  function StrategyName(s: Strategy): string {
    match s
    case WebGPUStrategy => "WebGPU"
    case WebGLStrategy => "WebGL"
    case WasmCpuStrategy => "WASM CPU"
    case RemoteStrategy => "远程API"
  }

  /** The `expectedPerformance` string paired with each strategy. */
  function ExpectedPerformance(s: Strategy): string {
    match s
    case WebGPUStrategy => "最佳"
    case WebGLStrategy => "良好"
    case WasmCpuStrategy => "中等"
    case RemoteStrategy => "低"
  }

  /** The decision in `getFullCompatibilityReport`. */
  function Recommend(webgpu: bool, webgl: bool, tier: Tier): Strategy {
    if webgpu then WebGPUStrategy
    else if webgl then WebGLStrategy
    else if tier != Low then WasmCpuStrategy
    else RemoteStrategy
  }

  /** The priority WebGPU > WebGL > CPU > remote, each direction of each case. */
  lemma RecommendPriority(webgpu: bool, webgl: bool, tier: Tier)
    ensures Recommend(webgpu, webgl, tier) == WebGPUStrategy <==> webgpu
    ensures Recommend(webgpu, webgl, tier) == WebGLStrategy <==> !webgpu && webgl
    ensures Recommend(webgpu, webgl, tier) == WasmCpuStrategy <==> !webgpu && !webgl && tier != Low
    ensures Recommend(webgpu, webgl, tier) == RemoteStrategy <==> !webgpu && !webgl && tier == Low
  {
  }

  /** Distinct strategies are reported under distinct names and the name determines the expected performance. */
  lemma StrategyNamesDistinct(s: Strategy, t: Strategy)
    ensures StrategyName(s) == StrategyName(t) <==> s == t
    ensures ExpectedPerformance(s) == ExpectedPerformance(t) <==> s == t
  {
  }

  /** The probe results a report is built from. */
  datatype Probes = Probes(
    webgpuSupported: bool,
    webglSupported: bool,
    deviceMemory: Option<Gigabytes>,
    hardwareConcurrency: Option<nat>,
    userAgent: string)

  datatype Report = Report(
    browser: BrowserInfo,
    isMobile: bool,
    webgpu: bool,
    webgl: bool,
    performance: DevicePerformance,
    strategy: Strategy)

  /** `getFullCompatibilityReport`: fails exactly when `getBrowserInfo` throws. */
  function FullReport(p: Probes): (r: Result<Report, ProbeError>)
    ensures r.Ok? <==> GetBrowserInfo(p.userAgent).Ok?
  {
    match GetBrowserInfo(p.userAgent)
    case Err(e) => Err(e)
    case Ok(b) =>
      var perf := CheckDevicePerformance(p.deviceMemory, p.hardwareConcurrency);
      Ok(Report(b, IsMobile(p.userAgent), p.webgpuSupported, p.webglSupported, perf,
                Recommend(p.webgpuSupported, p.webglSupported, perf.tier)))
  }

  /** A report's strategy follows the priority on its own probe results; being mobile plays no part. */
  lemma ReportStrategy(p: Probes)
    requires FullReport(p).Ok?
    ensures var r := FullReport(p).value;
            r.strategy == Recommend(r.webgpu, r.webgl, r.performance.tier)
            && r.webgpu == p.webgpuSupported && r.webgl == p.webglSupported
            && r.isMobile == IsMobile(p.userAgent)
    ensures forall ua' :: GetBrowserInfo(ua').Ok? ==>
              FullReport(p.(userAgent := ua')).value.strategy == FullReport(p).value.strategy
  {
  }
}
