/**
 * Deployment configuration: the host names that tell the origins apart, the
 * upstream source URLs, the wildcard flag, and the classification of a
 * request into one of the four origins.
 */
module Env {
  import opened Strings

  datatype Origin = Main | LiveSamples | Play | Unsafe

  datatype Source = ContentSource | LiveSamplesSource | ApiSource | SharedAssetsSource

  const LOCAL_CONTENT := "http://localhost:8100/"

  datatype Config = Config(
    originMain: string,
    originLiveSamples: string,
    originPlay: string,
    sourceContent: string,
    sourceApi: string,
    sourceSharedAssets: string,
    wildcard: bool)

  /** `process.env[key] || fallback`: an unset or empty variable gives the fallback. */
  function EnvOr(env: map<string, string>, key: string, fallback: string): (r: string)
    ensures key !in env || env[key] == "" ==> r == fallback
    ensures key in env && env[key] != "" ==> r == env[key]
  {
    if key in env && env[key] != "" then env[key] else fallback
  }

  /**
   * The configuration read from the environment. `jsonTruthy` stands for
   * `Boolean(JSON.parse(text))`.
   */
  function ConfigFromEnv(env: map<string, string>, jsonTruthy: string -> bool): (c: Config)
    ensures c.originMain == EnvOr(env, "ORIGIN_MAIN", "localhost")
    ensures c.originLiveSamples == EnvOr(env, "ORIGIN_LIVE_SAMPLES", "localhost")
    ensures c.originPlay == EnvOr(env, "ORIGIN_PLAY", "localhost")
    ensures c.sourceContent == EnvOr(env, "SOURCE_CONTENT", LOCAL_CONTENT)
    ensures c.sourceApi == EnvOr(env, "SOURCE_API", "https://developer.allizom.org/")
    ensures c.sourceSharedAssets == EnvOr(env, "SOURCE_SHARED_ASSETS", "https://mdn.github.io/shared-assets/")
    ensures c.wildcard == jsonTruthy(EnvOr(env, "WILDCARD_ENABLED", "false"))
  {
    Config(
      EnvOr(env, "ORIGIN_MAIN", "localhost"),
      EnvOr(env, "ORIGIN_LIVE_SAMPLES", "localhost"),
      EnvOr(env, "ORIGIN_PLAY", "localhost"),
      EnvOr(env, "SOURCE_CONTENT", LOCAL_CONTENT),
      EnvOr(env, "SOURCE_API", "https://developer.allizom.org/"),
      EnvOr(env, "SOURCE_SHARED_ASSETS", "https://mdn.github.io/shared-assets/"),
      jsonTruthy(EnvOr(env, "WILDCARD_ENABLED", "false")))
  }

  /**
   * With none of the three origin variables set, every origin is
   * `localhost`, so one host serves all three (see `SharedHostClassification`).
   */
  lemma UnsetOriginsShareLocalhost(env: map<string, string>, jsonTruthy: string -> bool)
    requires forall k :: k in ["ORIGIN_MAIN", "ORIGIN_LIVE_SAMPLES", "ORIGIN_PLAY"] ==> k !in env || env[k] == ""
    ensures var c := ConfigFromEnv(env, jsonTruthy);
      c.originMain == c.originLiveSamples == c.originPlay == "localhost"
  {
    assert "ORIGIN_MAIN" in ["ORIGIN_MAIN", "ORIGIN_LIVE_SAMPLES", "ORIGIN_PLAY"];
    assert "ORIGIN_LIVE_SAMPLES" in ["ORIGIN_MAIN", "ORIGIN_LIVE_SAMPLES", "ORIGIN_PLAY"];
    assert "ORIGIN_PLAY" in ["ORIGIN_MAIN", "ORIGIN_LIVE_SAMPLES", "ORIGIN_PLAY"];
  }

  /** With the variable unset or empty, wildcard mode is off. */
  lemma WildcardDefaultsOff(env: map<string, string>, jsonTruthy: string -> bool)
    requires "WILDCARD_ENABLED" !in env || env["WILDCARD_ENABLED"] == ""
    requires !jsonTruthy("false")
    ensures !ConfigFromEnv(env, jsonTruthy).wildcard
  {
  }

  /**
   * The origin of a request, from its host name and path. The tests run in
   * order, so `main` wins whenever its condition holds.
   */
  function OriginFromRequest(c: Config, hostname: string, path: string): (o: Origin)
    ensures o == Main <==>
      hostname == c.originMain && !Contains(path, "/_sample_.") && !EndsWith(path, "/runner.html")
    ensures o == LiveSamples <==>
      !(hostname == c.originMain && !Contains(path, "/_sample_.")) &&
      hostname == c.originLiveSamples && !EndsWith(path, "/runner.html")
    ensures o == Play <==>
      !(hostname == c.originMain && !Contains(path, "/_sample_.") && !EndsWith(path, "/runner.html")) &&
      !(hostname == c.originLiveSamples && !EndsWith(path, "/runner.html")) &&
      EndsWith(hostname, c.originPlay)
  {
    if hostname == c.originMain && !Contains(path, "/_sample_.") && !EndsWith(path, "/runner.html") then Main
    else if hostname == c.originLiveSamples && !EndsWith(path, "/runner.html") then LiveSamples
    else if EndsWith(hostname, c.originPlay) then Play
    else Unsafe
  }

  /**
   * Each origin needs its own host: the main site only answers on the main
   * host, live samples only on the live-samples host and the playground
   * only on a host ending in the playground's; a runner page is never main
   * or a live sample, and a live-sample path is never the main site.
   */
  lemma OriginNeedsItsHost(c: Config, hostname: string, path: string)
    ensures OriginFromRequest(c, hostname, path) == Main ==> hostname == c.originMain
    ensures OriginFromRequest(c, hostname, path) == LiveSamples ==> hostname == c.originLiveSamples
    ensures OriginFromRequest(c, hostname, path) == Play ==> EndsWith(hostname, c.originPlay)
    ensures EndsWith(path, "/runner.html") ==> OriginFromRequest(c, hostname, path) in {Play, Unsafe}
    ensures Contains(path, "/_sample_.") ==> OriginFromRequest(c, hostname, path) != Main
  {
  }

  /**
   * When all three origins share one host name (the default, "localhost"),
   * a runner page is a playground request, a live-sample path a live
   * sample, and every other path the main site.
   */
  lemma SharedHostClassification(c: Config, path: string)
    requires c.originMain == c.originLiveSamples == c.originPlay
    ensures EndsWith(path, "/runner.html") ==> OriginFromRequest(c, c.originMain, path) == Play
    ensures !EndsWith(path, "/runner.html") && Contains(path, "/_sample_.") ==>
      OriginFromRequest(c, c.originMain, path) == LiveSamples
    ensures !EndsWith(path, "/runner.html") && !Contains(path, "/_sample_.") ==>
      OriginFromRequest(c, c.originMain, path) == Main
  {
    assert EndsWith(c.originMain, c.originPlay) by {
      assert c.originMain[|c.originMain| - |c.originPlay|..] == c.originMain;
    }
  }

  /** The upstream URL of a source; a source without one maps to "". */
  function SourceUri(c: Config, s: Source): (r: string)
    ensures s == ContentSource ==> r == c.sourceContent
    ensures s == ApiSource ==> r == c.sourceApi
    ensures s == SharedAssetsSource ==> r == c.sourceSharedAssets
    ensures s == LiveSamplesSource ==> r == ""
  {
    match s
    case ContentSource => c.sourceContent
    case ApiSource => c.sourceApi
    case SharedAssetsSource => c.sourceSharedAssets
    case LiveSamplesSource => ""
  }

  /**
   * Only the live-samples source has no upstream: every other source gets a
   * non-empty URL, from its variable or its default.
   */
  lemma OnlyLiveSamplesLackUpstream(env: map<string, string>, jsonTruthy: string -> bool, s: Source)
    ensures SourceUri(ConfigFromEnv(env, jsonTruthy), s) == "" <==> s == LiveSamplesSource
  {
  }
}
