/**
 * One download (`DownloadImage`) and the attempt loop around it that
 * `ReadArchiveData` and `RetryForFailedDownloads` share, over an abstract
 * file system and an abstract network.
 */
module Fetching {
  import opened Model
  import opened Strings
  import opened Urls
  import opened FileNames

  /** The application settings the core reads. */
  datatype Config = Config(
    rootDirectory: string,
    bingDomain: string,
    bingMarkets: seq<string>,
    downloadByDemand: bool,        // the setting DownloadByDemand is "1"
    numberOfPreviousDays: int,     // the setting NumberOfPreviousDays, used on demand
    downloadAttemptsForEachImage: int,
    retryForFailedDownloads: bool, // the setting RetryForFailedDownloads is "1"
    invalidFileNameChars: seq<char>)

  /**
   * Everything outside the program: the settings; `fetch(n, url)` tells
   * whether the n-th image request of the run (counting from 0) succeeds;
   * `feed(days, market)` is the archive feed's image elements, or None
   * where loading it throws; `today` is the current day number.
   */
  datatype Env = Env(
    cfg: Config,
    fetch: (nat, string) -> bool,
    feed: (int, string) -> Option<seq<Element>>,
    today: int)

  /** The image files present and the image URLs requested so far, in order. */
  datatype World = World(files: set<string>, requests: seq<string>)

  /** `rootDirectory\` + sanitised description + the extension of the corrected URL. */
  function TargetPath(cfg: Config, url: string, description: string): string
  {
    cfg.rootDirectory + "\\" + ImageFileName(description, cfg.invalidFileNameChars)
      + Extension(CorrectedUrl(url))
  }

  /** The address `DownloadFile` is given: domain, a slash, and the corrected URL. */
  function RequestUrl(cfg: Config, url: string): string
  {
    cfg.bingDomain + "/" + CorrectedUrl(url)
  }

  /**
   * `DownloadImage`: success without a request when the target file exists;
   * otherwise one request, whose failure (any exception) is the result false.
   */
  function Download(env: Env, w: World, url: string, description: string): (r: (bool, World))
    ensures r.0 <==> TargetPath(env.cfg, url, description) in r.1.files
    ensures w.files <= r.1.files && w.requests <= r.1.requests && |r.1.requests| <= |w.requests| + 1
    ensures TargetPath(env.cfg, url, description) in w.files ==> r == (true, w)
  {
    var target := TargetPath(env.cfg, url, description);
    if target in w.files then (true, w)
    else
      var request := RequestUrl(env.cfg, url);
      var ok := env.fetch(|w.requests|, request);
      (ok, World(if ok then w.files + {target} else w.files, w.requests + [request]))
  }

  /** A missing target is requested from the corrected URL, and the request's outcome is the result. */
  lemma DownloadRequestsMissingFile(env: Env, w: World, url: string, description: string)
    requires TargetPath(env.cfg, url, description) !in w.files
    ensures var r := Download(env, w, url, description);
            && r.1.requests == w.requests + [env.cfg.bingDomain + "/" + CorrectedUrl(url)]
            && r.0 == env.fetch(|w.requests|, env.cfg.bingDomain + "/" + CorrectedUrl(url))
            && r.1.files == if r.0 then w.files + {TargetPath(env.cfg, url, description)} else w.files
  {
  }

  /** A URL whose correction is empty is not skipped: the domain followed by a slash is requested. */
  lemma EmptyCorrectedUrlStillRequests(env: Env, w: World, url: string, description: string)
    requires CorrectedUrl(url) == ""
    requires env.cfg.rootDirectory + "\\" + ImageFileName(description, env.cfg.invalidFileNameChars) !in w.files
    ensures Download(env, w, url, description).1.requests == w.requests + [env.cfg.bingDomain + "/"]
  {
    assert Extension("") == "" by {
      assert !OccursAt("", Jpg, IndexOf("", Jpg)) && !OccursAt("", Png, IndexOf("", Png));
    }
    var path := env.cfg.rootDirectory + "\\" + ImageFileName(description, env.cfg.invalidFileNameChars);
    assert path + "" == path;
    var request := env.cfg.bingDomain + "/";
    assert request + "" == request;
  }

  /** What the attempt loop leaves: whether the image is available, the world, and the shared attempt counter. */
  datatype Attempt = Attempt(ok: bool, world: World, attempted: int)

  function Max(a: int, b: int): int
  {
    if a < b then b else a
  }

  /**
   * The `while (downloadAttemptedCount < downloadAttemptsForEachImage)` loop:
   * download until one attempt succeeds; each failed attempt uses one unit of
   * the counter, which is NOT reset per image, so an exhausted counter makes
   * the loop do nothing.
   */
  function TryDownload(env: Env, w: World, attempted: int, img: BingImage): (r: Attempt)
    ensures attempted <= r.attempted
    ensures r.ok ==> r.attempted < env.cfg.downloadAttemptsForEachImage
    ensures r.ok ==> TargetPath(env.cfg, img.imageUrl, img.imageDescription) in r.world.files
    ensures !r.ok ==> r.attempted == Max(attempted, env.cfg.downloadAttemptsForEachImage)
    ensures w.files <= r.world.files && w.requests <= r.world.requests
    ensures |r.world.requests| - |w.requests| <= r.attempted - attempted + (if r.ok then 1 else 0)
    ensures attempted >= env.cfg.downloadAttemptsForEachImage ==> r == Attempt(false, w, attempted)
    ensures attempted < env.cfg.downloadAttemptsForEachImage && TargetPath(env.cfg, img.imageUrl, img.imageDescription) in w.files
            ==> r == Attempt(true, w, attempted)
    ensures attempted < env.cfg.downloadAttemptsForEachImage && !r.ok
            ==> && TargetPath(env.cfg, img.imageUrl, img.imageDescription) !in r.world.files
                && |r.world.requests| == |w.requests| + (r.attempted - attempted)
    decreases env.cfg.downloadAttemptsForEachImage - attempted
  {
    if attempted >= env.cfg.downloadAttemptsForEachImage then Attempt(false, w, attempted)
    else
      var d := Download(env, w, img.imageUrl, img.imageDescription);
      if d.0 then Attempt(true, d.1, attempted)
      else TryDownload(env, d.1, attempted + 1, img)
  }

  /** The attempt loop adds the image's own file on success and no file at all otherwise. */
  lemma {:induction false} TryDownloadAddsOnlyTarget(env: Env, w: World, attempted: int, img: BingImage)
    ensures var r := TryDownload(env, w, attempted, img);
            r.world.files == w.files + (if r.ok then {TargetPath(env.cfg, img.imageUrl, img.imageDescription)} else {})
    decreases env.cfg.downloadAttemptsForEachImage - attempted
  {
    if attempted < env.cfg.downloadAttemptsForEachImage {
      var d := Download(env, w, img.imageUrl, img.imageDescription);
      if !d.0 {
        TryDownloadAddsOnlyTarget(env, d.1, attempted + 1, img);
      }
    }
  }

  /**
   * For a missing file the attempt loop stops at the first request that
   * succeeds: every request goes to the corrected URL, every one before the
   * last failed, and a success comes from the last one. With no success,
   * one request was made per attempt left.
   */
  lemma {:induction false} TryDownloadStopsAtFirstSuccess(env: Env, w: World, attempted: int, img: BingImage)
    requires TargetPath(env.cfg, img.imageUrl, img.imageDescription) !in w.files
    ensures var r := TryDownload(env, w, attempted, img);
            var req := RequestUrl(env.cfg, img.imageUrl);
            var last := if r.ok then 1 else 0;
            && (forall i :: |w.requests| <= i < |r.world.requests| ==> r.world.requests[i] == req)
            && (forall i :: |w.requests| <= i < |r.world.requests| - last ==> !env.fetch(i, req))
            && (r.ok ==> && |r.world.requests| == |w.requests| + (r.attempted - attempted) + 1
                         && env.fetch(|r.world.requests| - 1, req))
            && (!r.ok ==> |r.world.requests| == |w.requests| + (Max(attempted, env.cfg.downloadAttemptsForEachImage) - attempted))
    decreases env.cfg.downloadAttemptsForEachImage - attempted
  {
    var r := TryDownload(env, w, attempted, img);
    var req := RequestUrl(env.cfg, img.imageUrl);
    if attempted < env.cfg.downloadAttemptsForEachImage {
      var d := Download(env, w, img.imageUrl, img.imageDescription);
      assert d.1.requests == w.requests + [req] && d.0 == env.fetch(|w.requests|, req);
      if d.0 {
        assert r == Attempt(true, d.1, attempted);
      } else {
        assert r == TryDownload(env, d.1, attempted + 1, img);
        TryDownloadStopsAtFirstSuccess(env, d.1, attempted + 1, img);
      }
    } else {
      assert r == Attempt(false, w, attempted);
    }
  }

  /**
   * Three attempts against a fetch that fails twice and then succeeds: the
   * image is downloaded after three requests, with two attempts used.
   */
  lemma FailsTwiceThenSucceeds(env: Env, w: World, img: BingImage)
    requires env.cfg.downloadAttemptsForEachImage == 3
    requires TargetPath(env.cfg, img.imageUrl, img.imageDescription) !in w.files
    requires forall n: nat :: env.fetch(n, RequestUrl(env.cfg, img.imageUrl)) == (n >= |w.requests| + 2)
    ensures var r := TryDownload(env, w, 0, img);
            r.ok && |r.world.requests| == |w.requests| + 3 && r.attempted == 2
  {
    var r := TryDownload(env, w, 0, img);
    var req := RequestUrl(env.cfg, img.imageUrl);
    TryDownloadStopsAtFirstSuccess(env, w, 0, img);
    assert env.fetch(|w.requests| + 2, req);
  }
}
