/**
 * The `Program` class itself: its static counters `totalFilesToDownload` and
 * `filesDownloaded`, the image files on disk, the image requests made, and
 * the three files it keeps (progress date, failed-downloads ledger, status
 * log), updated in place by the same loops as the source. Each method is
 * proved against the function of `Fetching`, `Feeds` or `Runs` that states
 * its effect.
 */
module Downloader {
  import opened Model
  import opened Strings
  import opened Urls
  import opened FileNames
  import opened Fetching
  import opened Feeds
  import opened Schedule
  import opened Runs

  class Program {
    const env: Env
    var files: set<string>
    var requests: seq<string>
    var totalFilesToDownload: int
    var filesDownloaded: int
    var status: StatusFile
    var ledger: Option<seq<Element>>
    var logFile: seq<StatusEntry>

    /** The image files and the requests, as one value. */
    function Disk(): World
      reads this
    {
      World(files, requests)
    }

    /** Everything `Main` reads and writes, as one value. */
    function State(): Machine
      reads this
    {
      Machine(World(files, requests), totalFilesToDownload, filesDownloaded, status, ledger, logFile)
    }

    /** The state of a pass, with the locals of the loop that runs it. */
    function Pass(attempted: int, failed: seq<BingImage>, log: seq<StatusEntry>): RunState
      reads this
    {
      RunState(World(files, requests), totalFilesToDownload, filesDownloaded, attempted, failed, log)
    }

    /** A process start: both static counters are zero and no image has been requested yet. */
    constructor (env: Env, files: set<string>, status: StatusFile, ledger: Option<seq<Element>>, logFile: seq<StatusEntry>)
      ensures this.env == env
      ensures State() == Machine(World(files, []), 0, 0, status, ledger, logFile)
    {
      this.env := env;
      this.files := files;
      this.requests := [];
      this.totalFilesToDownload := 0;
      this.filesDownloaded := 0;
      this.status := status;
      this.ledger := ledger;
      this.logFile := logFile;
    }

    /** `DownloadImage`: the target path from the description and the corrected URL, then a request only if the file is missing. */
    method DownloadImage(imageUrl: string, imageDescription: string) returns (isDownloaded: bool)
      modifies this`files, this`requests
      ensures (isDownloaded, Disk()) == Download(env, old(Disk()), imageUrl, imageDescription)
    {
      var corrected := CorrectedUrl(imageUrl);
      var extension := "";
      if Contains(corrected, Jpg) {
        extension := Jpg;
      } else if Contains(corrected, Png) {
        extension := Png;
      }
      var fileName := ImageFileName(imageDescription, env.cfg.invalidFileNameChars) + extension;
      fileName := env.cfg.rootDirectory + "\\" + fileName;
      assert fileName == TargetPath(env.cfg, imageUrl, imageDescription);
      if fileName !in files {
        var request := env.cfg.bingDomain + "/" + corrected;
        isDownloaded := env.fetch(|requests|, request);
        requests := requests + [request];
        if isDownloaded {
          files := files + {fileName};
        }
      } else {
        isDownloaded := true;
      }
    }

    /**
     * The `while (downloadAttemptedCount < downloadAttemptsForEachImage)` loop
     * of both passes. `isImageDownloaded` is the caller's flag as it stands
     * before the loop: when the loop does not run it keeps that value.
     */
    method DownloadWithAttempts(imageUrl: string, imageDescription: string, attemptedBefore: int, isImageDownloadedBefore: bool)
      returns (isImageDownloaded: bool, downloadAttemptedCount: int)
      modifies this`files, this`requests, this`filesDownloaded
      ensures var a := TryDownload(env, old(Disk()), attemptedBefore, BingImage(imageUrl, imageDescription));
              && Disk() == a.world && downloadAttemptedCount == a.attempted
              && isImageDownloaded == (if attemptedBefore < env.cfg.downloadAttemptsForEachImage then a.ok else isImageDownloadedBefore)
              && filesDownloaded == old(filesDownloaded) + (if a.ok then 1 else 0)
    {
      var img := BingImage(imageUrl, imageDescription);
      ghost var goal := TryDownload(env, Disk(), attemptedBefore, img);
      isImageDownloaded := isImageDownloadedBefore;
      downloadAttemptedCount := attemptedBefore;
      while downloadAttemptedCount < env.cfg.downloadAttemptsForEachImage
        invariant goal == TryDownload(env, Disk(), downloadAttemptedCount, img)
        invariant filesDownloaded == old(filesDownloaded)
        invariant downloadAttemptedCount > attemptedBefore ==> !isImageDownloaded
        invariant downloadAttemptedCount == attemptedBefore ==> isImageDownloaded == isImageDownloadedBefore
        decreases env.cfg.downloadAttemptsForEachImage - downloadAttemptedCount
      {
        isImageDownloaded := DownloadImage(imageUrl, imageDescription);
        if isImageDownloaded {
          filesDownloaded := filesDownloaded + 1;
          break;
        } else {
          downloadAttemptedCount := downloadAttemptedCount + 1;
        }
      }
    }

    /**
     * What both image loops do with a record whose URL is not empty: the
     * attempt loop, then the record joins the failed list unless the flag
     * says it was downloaded. The callers keep the flag true only while the
     * counter is below the limit (`ReadArchiveData` resets it, and in
     * `RetryForFailedDownloads` a success leaves the counter below it), so a
     * stale flag never hides a failure. The ghost `log` stands for the
     * status log of the pass, which a record leaves unchanged; it only
     * completes the pass state the contract compares with `Runs.Step`.
     */
    method DownloadRecord(img: BingImage, attempted: int, failed: seq<BingImage>, isImageDownloaded: bool, ghost log: seq<StatusEntry>)
      returns (nowDownloaded: bool, downloadAttemptedCount: int, lstFailedDownloads: seq<BingImage>)
      requires img.imageUrl != ""
      requires isImageDownloaded ==> attempted < env.cfg.downloadAttemptsForEachImage
      modifies this`files, this`requests, this`filesDownloaded
      ensures Pass(downloadAttemptedCount, lstFailedDownloads, log) == Step(env, old(Pass(attempted, failed, log)), img)
      ensures nowDownloaded ==> downloadAttemptedCount < env.cfg.downloadAttemptsForEachImage
    {
      nowDownloaded, downloadAttemptedCount :=
        DownloadWithAttempts(img.imageUrl, img.imageDescription, attempted, isImageDownloaded);
      lstFailedDownloads := failed;
      if !nowDownloaded {
        lstFailedDownloads := lstFailedDownloads + [img];
      }
    }

    /**
     * `GetImagesXML` with `VerifyImagesXML`: on demand, the offsets `days`,
     * `days - 1`, ..., 0 are tried in that order until a feed loads; when
     * scheduled, one load. The ghost `tried` records the offsets loaded, in
     * order; the source keeps no such list.
     */
    method GetImagesXml(days: int, market: string) returns (r: FeedResult, ghost tried: seq<int>)
      ensures r == LoadFeed(env, days, market)
      ensures !env.cfg.downloadByDemand ==> tried == [days]
      ensures env.cfg.downloadByDemand ==> SearchedDownward(env.feed, days, market, tried, r)
    {
      tried := [];
      if env.cfg.downloadByDemand {
        var n := days;
        var imagesXml: Option<seq<Element>> := None;
        while imagesXml.None? && n >= 0
          invariant imagesXml.None? ==> FirstAvailable(env.feed, days, market) == FirstAvailable(env.feed, n, market)
          invariant imagesXml.None? ==> |tried| == days - n && (days >= 0 ==> n >= -1)
          invariant imagesXml.None? && days < 0 ==> n == days
          invariant imagesXml.Some? ==> FirstAvailable(env.feed, days, market) == Loaded(imagesXml.value)
          invariant imagesXml.Some? ==> |tried| > 0 && tried[|tried| - 1] == n && env.feed(n, market) == imagesXml && 0 <= n <= days
          invariant imagesXml.Some? ==> |tried| == days - n + 1
          invariant forall i :: 0 <= i < |tried| ==> tried[i] == days - i
          invariant forall i :: 0 <= i < |tried| - (if imagesXml.Some? then 1 else 0) ==> env.feed(tried[i], market).None?
          decreases if imagesXml.Some? || n < 0 then 0 else n + 1
        {
          imagesXml := env.feed(n, market);
          tried := tried + [n];
          if imagesXml.Some? {
            break;
          } else {
            n := n - 1;
          }
        }
        r := if imagesXml.Some? then Loaded(imagesXml.value) else NotFound;
      } else {
        tried := [days];
        r := match env.feed(days, market) case Some(es) => Loaded(es) case None => LoadThrew;
      }
    }

    /**
     * `ReadArchiveData`: for each configured market, load the feed, count its
     * image nodes toward the total, and try each image with a non-empty URL
     * against one attempt counter for the whole run. `threw` is an exception
     * reading a feed or an image node.
     */
    method ReadArchiveData(days: int) returns (failed: seq<BingImage>, log: seq<StatusEntry>, threw: bool)
      modifies this`files, this`requests, this`totalFilesToDownload, this`filesDownloaded
      ensures var o := ReadArchive(env, days, old(Disk()), old(totalFilesToDownload), old(filesDownloaded));
              && threw == o.Threw?
              && Disk() == o.st.world && totalFilesToDownload == o.st.total && filesDownloaded == o.st.downloaded
              && (!threw ==> failed == o.st.failed && log == o.st.log)
    {
      ghost var goal := ReadArchive(env, days, Disk(), totalFilesToDownload, filesDownloaded);
      var downloadAttemptedCount := 0;
      failed, log, threw := [], [], false;
      var markets := env.cfg.bingMarkets;
      var m := 0;
      while m < |markets|
        invariant 0 <= m <= |markets|
        invariant goal == ReadMarkets(env, days, markets[m..], Pass(downloadAttemptedCount, failed, log))
      {
        assert markets[m..][1..] == markets[m + 1..];
        downloadAttemptedCount, failed, log, threw := ReadMarketData(days, markets[m], downloadAttemptedCount, failed, log);
        if threw {
          return;
        }
        m := m + 1;
      }
    }

    /**
     * The body of `ReadArchiveData`'s loop for one market: the feed, then
     * either a status-log entry or the loop over its image nodes.
     */
    method ReadMarketData(days: int, market: string, attempted: int, failed: seq<BingImage>, log: seq<StatusEntry>)
      returns (downloadAttemptedCount: int, lstFailedDownloads: seq<BingImage>, statusLog: seq<StatusEntry>, threw: bool)
      modifies this`files, this`requests, this`totalFilesToDownload, this`filesDownloaded
      ensures var o := ReadMarket(env, days, market, old(Pass(attempted, failed, log)));
              threw == o.Threw? && Pass(downloadAttemptedCount, lstFailedDownloads, statusLog) == o.st
    {
      downloadAttemptedCount, lstFailedDownloads, statusLog, threw := attempted, failed, log, false;
      ghost var before := Pass(attempted, failed, log);
      ghost var tried;
      var imagesXml;
      imagesXml, tried := GetImagesXml(days, market);
      match imagesXml
      case LoadThrew =>
        assert ReadMarket(env, days, market, before) == Threw(before);
        threw := true;
      case NotFound =>
        statusLog := statusLog + [StatusEntry(days, market, CouldNotLoadArchiveXml)];
        assert ReadMarket(env, days, market, before) == Done(before.(log := statusLog));
      case Loaded(imageNodes) =>
        if |imageNodes| > 0 {
          assert ReadMarket(env, days, market, before) == ReadFeedImages(env, imageNodes, before);
          downloadAttemptedCount, lstFailedDownloads, threw :=
            DownloadFeedImages(imageNodes, downloadAttemptedCount, lstFailedDownloads, statusLog);
        } else {
          statusLog := statusLog + [StatusEntry(days, market, NoImagesXmlData)];
          assert ReadMarket(env, days, market, before) == Done(before.(log := statusLog));
        }
    }

    /**
     * A feed with image nodes in `ReadArchiveData`: all nodes count toward
     * `totalFilesToDownload`, then the `foreach (XElement image in imageNodes)`
     * loop reads the `url` and `copyright` children (a missing one throws)
     * and tries each image with a non-empty URL, the download flag reset first.
     */
    method DownloadFeedImages(imageNodes: seq<Element>, attempted: int, failed: seq<BingImage>, log: seq<StatusEntry>)
      returns (downloadAttemptedCount: int, lstFailedDownloads: seq<BingImage>, threw: bool)
      modifies this`files, this`requests, this`totalFilesToDownload, this`filesDownloaded
      ensures var o := ReadFeedImages(env, imageNodes, old(Pass(attempted, failed, log)));
              threw == o.Threw? && Pass(downloadAttemptedCount, lstFailedDownloads, log) == o.st
    {
      totalFilesToDownload := totalFilesToDownload + |imageNodes|;
      downloadAttemptedCount, lstFailedDownloads, threw := attempted, failed, false;
      var isImageDownloaded := false;
      ghost var goal := ProcessImages(env, imageNodes, ImageUrl, ImageDescription, Pass(attempted, failed, log));
      assert goal == ReadFeedImages(env, imageNodes, old(Pass(attempted, failed, log)));
      var i := 0;
      while i < |imageNodes|
        invariant 0 <= i <= |imageNodes|
        invariant totalFilesToDownload == old(totalFilesToDownload) + |imageNodes|
        invariant goal == ProcessImages(env, imageNodes[i..], ImageUrl, ImageDescription,
                                        Pass(downloadAttemptedCount, lstFailedDownloads, log))
      {
        var image := imageNodes[i];
        var imageUrl := Child(image, ImageUrl);
        var imageDescription := Child(image, ImageDescription);
        if imageUrl.None? || imageDescription.None? {
          assert imageNodes[i..][0] == image;
          assert goal == Threw(Pass(downloadAttemptedCount, lstFailedDownloads, log));
          threw := true;
          return;
        }
        ghost var img := BingImage(imageUrl.value, imageDescription.value);
        assert imageNodes[i..][0] == image && imageNodes[i..][1..] == imageNodes[i + 1..];
        assert goal == ProcessImages(env, imageNodes[i + 1..], ImageUrl, ImageDescription,
                                     Step(env, Pass(downloadAttemptedCount, lstFailedDownloads, log), img));
        if imageUrl.value != "" {
          isImageDownloaded := false;
          isImageDownloaded, downloadAttemptedCount, lstFailedDownloads :=
            DownloadRecord(BingImage(imageUrl.value, imageDescription.value), downloadAttemptedCount, lstFailedDownloads, isImageDownloaded, log);
        }
        i := i + 1;
      }
      assert goal == Done(Pass(downloadAttemptedCount, lstFailedDownloads, log));
    }

    /** The node-building loop of both ledger writers: one `Image` node per record, appended in order. */
    method AppendImageNodes(doc: seq<Element>, images: seq<BingImage>) returns (r: seq<Element>)
      ensures r == doc + ImageNodes(images)
    {
      r := doc;
      for i := 0 to |images|
        invariant r == doc + ImageNodes(images[..i])
      {
        r := r + [ImageNode(images[i])];
        assert images[..i + 1] == images[..i] + [images[i]];
        ImageNodesSnoc(images[..i], images[i]);
      }
      assert images[..|images|] == images;
    }

    /** `SaveFailedDownloadsXML`: load the ledger (an empty one if absent) and append one `Image` node per record. */
    method SaveFailedDownloadsXml(lstFailedDownloads: seq<BingImage>)
      modifies this`ledger
      ensures ledger == Some(AppendToLedger(old(ledger), lstFailedDownloads))
    {
      var doc := if ledger.None? then [] else ledger.value;
      doc := AppendImageNodes(doc, lstFailedDownloads);
      ledger := Some(doc);
    }

    /** `SaveStatusXML`: the progress file now records `day`. */
    method SaveStatusXml(day: int)
      modifies this`status
      ensures status == LastDownloaded(day)
    {
      status := LastDownloaded(day);
    }

    /** `SaveStatusLog`: the run's entries go after the ones already in the log. */
    method SaveStatusLog(entries: seq<StatusEntry>)
      modifies this`logFile
      ensures logFile == old(logFile) + entries
    {
      logFile := logFile + entries;
    }

    /**
     * `RetryForFailedDownloads`, reading each ledger node's children by the
     * names given: with a non-empty ledger, try every record with a non-empty
     * URL against a fresh attempt counter, then replace the ledger with the
     * records that still failed. `isImageDownloaded` is not reset between
     * records, as in the source.
     */
    method RetryForFailedDownloads(urlName: string, descName: string) returns (threw: bool)
      modifies this`files, this`requests, this`filesDownloaded, this`ledger
      ensures var o := RetryFailedDownloads(env, old(State()), urlName, descName);
              threw == o.Threw? && State() == o.st
    {
      threw := false;
      if ledger.Some? {
        var nodes := ledger.value;
        if |nodes| > 0 {
          var isImageDownloaded := false;
          var downloadAttemptedCount := 0;
          var lstFailedDownloads: seq<BingImage> := [];
          ghost var start := Pass(0, [], []);
          ghost var goal := ProcessImages(env, nodes, urlName, descName, start);
          var i := 0;
          while i < |nodes|
            invariant 0 <= i <= |nodes|
            invariant ledger == old(ledger) && totalFilesToDownload == old(totalFilesToDownload)
            invariant status == old(status) && logFile == old(logFile)
            invariant isImageDownloaded ==> downloadAttemptedCount < env.cfg.downloadAttemptsForEachImage
            invariant goal == ProcessImages(env, nodes[i..], urlName, descName, Pass(downloadAttemptedCount, lstFailedDownloads, []))
          {
            var file := nodes[i];
            var imageUrl := Child(file, urlName);
            var imageDescription := Child(file, descName);
            if imageUrl.None? || imageDescription.None? {
              assert nodes[i..][0] == file;
              assert goal == Threw(Pass(downloadAttemptedCount, lstFailedDownloads, []));
              threw := true;
              return;
            }
            if imageUrl.value != "" {
              isImageDownloaded, downloadAttemptedCount, lstFailedDownloads :=
                DownloadRecord(BingImage(imageUrl.value, imageDescription.value), downloadAttemptedCount, lstFailedDownloads, isImageDownloaded, []);
            }
            assert nodes[i..][1..] == nodes[i + 1..];
            i := i + 1;
          }
          assert goal == Done(Pass(downloadAttemptedCount, lstFailedDownloads, []));
          var doc := AppendImageNodes([], lstFailedDownloads);
          assert [] + ImageNodes(lstFailedDownloads) == ImageNodes(lstFailedDownloads);
          ledger := Some(doc);
        }
      }
    }

    /**
     * `Main`: the day offset; nothing more when it is negative; otherwise the
     * archive pass, then the ledger, the status log and the progress date,
     * each written only when there is something to write, then the optional
     * retry pass with the feed's child names. `threw` is an exception caught
     * by `Main`.
     */
    method Run() returns (threw: bool)
      modifies this
      ensures var o := Runs.Run(env, old(State()));
              threw == o.Threw? && State() == o.st
    {
      ghost var goal := Runs.RunWith(env, State(), ImageUrl, ImageDescription);
      assert goal == Runs.Run(env, State());
      threw := false;
      var numberOfPreviousDays := NumberOfPreviousDays(env, status);
      if numberOfPreviousDays.None? {
        threw := true;
        return;
      }
      if numberOfPreviousDays.value >= 0 {
        var lstFailedDownloads, statusLog;
        lstFailedDownloads, statusLog, threw := ReadArchiveData(numberOfPreviousDays.value);
        if threw {
          return;
        }
        if |lstFailedDownloads| > 0 {
          SaveFailedDownloadsXml(lstFailedDownloads);
        }
        if |statusLog| > 0 {
          SaveStatusLog(statusLog);
        }
        if totalFilesToDownload > 0 && filesDownloaded > 0 {
          SaveStatusXml(env.today);
        }
        if env.cfg.retryForFailedDownloads {
          threw := RetryForFailedDownloads(ImageUrl, ImageDescription);
        }
      }
    }
  }
}
