/**
 * The bookkeeping of one run, as functions of the state before it: the
 * image loop shared by `ReadArchiveData` and `RetryForFailedDownloads`, the
 * market loop of `ReadArchiveData`, the retry pass, and the sequence of
 * decisions in `Main`. An exception is an outcome `Threw(state)`: `Main`
 * catches it and writes nothing further.
 */
module Runs {
  import opened Model
  import opened Sequences
  import opened Fetching
  import opened Feeds
  import opened Schedule

  /** The message of a status-log entry (`BuildStatusLog`). */
  datatype StatusMessage = NoImagesXmlData | CouldNotLoadArchiveXml

  /** A status-log entry: the run's day offset, the market and the message. */
  datatype StatusEntry = StatusEntry(days: int, market: string, message: StatusMessage)

  /**
   * What a pass accumulates: the world, the two static counters
   * `totalFilesToDownload` and `filesDownloaded`, the shared attempt counter,
   * the failed list and the status-log entries.
   */
  datatype RunState = RunState(
    world: World,
    total: int,
    downloaded: int,
    attempted: int,
    failed: seq<BingImage>,
    log: seq<StatusEntry>)

  datatype Outcome<S> = Done(st: S) | Threw(st: S)

  /** The records a list of elements reads as, or None when an element lacks one of the two children. */
  function ParseImages(es: seq<Element>, urlName: string, descName: string): (r: Option<seq<BingImage>>)
    ensures r.Some? <==> forall i :: 0 <= i < |es| ==> urlName in es[i] && descName in es[i]
    ensures r.Some? ==> |r.value| == |es|
    ensures r.Some? ==> forall i :: 0 <= i < |es| ==> r.value[i] == BingImage(es[i][urlName], es[i][descName])
  {
    if es == [] then Some([])
    else
      var u, d, rest := Child(es[0], urlName), Child(es[0], descName), ParseImages(es[1..], urlName, descName);
      if u.None? || d.None? || rest.None? then None
      else Some([BingImage(u.value, d.value)] + rest.value)
  }

  /** The records with a non-empty URL, in order: the ones the loops try to download. */
  function NonEmptyUrls(imgs: seq<BingImage>): (r: seq<BingImage>)
    ensures forall i :: 0 <= i < |r| ==> r[i].imageUrl != ""
    ensures forall i :: 0 <= i < |imgs| && imgs[i].imageUrl != "" ==> imgs[i] in r
    ensures IsSubsequence(r, imgs)
  {
    if imgs == [] then []
    else if imgs[0].imageUrl == "" then NonEmptyUrls(imgs[1..])
    else [imgs[0]] + NonEmptyUrls(imgs[1..])
  }

  /** Selecting the records with a URL works record by record: a concatenation is handled piecewise. */
  lemma {:induction false} NonEmptyUrlsAppend(a: seq<BingImage>, b: seq<BingImage>)
    ensures NonEmptyUrls(a + b) == NonEmptyUrls(a) + NonEmptyUrls(b)
  {
    if a == [] {
      assert a + b == b;
    } else {
      assert (a + b)[0] == a[0] && (a + b)[1..] == a[1..] + b;
      NonEmptyUrlsAppend(a[1..], b);
      if a[0].imageUrl == "" {
        assert NonEmptyUrls(a + b) == NonEmptyUrls(a[1..]) + NonEmptyUrls(b);
      } else {
        assert NonEmptyUrls(a + b) == [a[0]] + (NonEmptyUrls(a[1..]) + NonEmptyUrls(b));
      }
    }
  }

  /**
   * One readable image: with a non-empty URL it is tried against the shared
   * attempt counter; a success counts as downloaded, a failure joins the
   * failed list.
   */
  function Step(env: Env, st: RunState, img: BingImage): (r: RunState)
    ensures img.imageUrl == "" ==> r == st
    ensures img.imageUrl != "" ==>
              || (r.downloaded == st.downloaded + 1 && r.failed == st.failed)
              || (r.downloaded == st.downloaded && r.failed == st.failed + [img])
  {
    if img.imageUrl == "" then st
    else
      var a := TryDownload(env, st.world, st.attempted, img);
      st.(world := a.world, attempted := a.attempted,
          downloaded := if a.ok then st.downloaded + 1 else st.downloaded,
          failed := if a.ok then st.failed else st.failed + [img])
  }

  /**
   * The loop over image elements: read the URL child, then the description
   * child (a missing one throws), and try an image with a non-empty URL
   * against the shared attempt counter.
   */
  function ProcessImages(env: Env, es: seq<Element>, urlName: string, descName: string, st: RunState): (o: Outcome<RunState>)
    ensures o.st.total == st.total && o.st.log == st.log
    ensures st.attempted <= o.st.attempted <= Max(st.attempted, env.cfg.downloadAttemptsForEachImage)
    ensures st.failed <= o.st.failed && st.downloaded <= o.st.downloaded
    ensures st.world.files <= o.st.world.files && st.world.requests <= o.st.world.requests
    ensures (o.st.downloaded - st.downloaded) + (|o.st.failed| - |st.failed|) <= |es|
    decreases |es|
  {
    if es == [] then Done(st)
    else
      var u, d := Child(es[0], urlName), Child(es[0], descName);
      if u.None? || d.None? then Threw(st)
      else ProcessImages(env, es[1..], urlName, descName, Step(env, st, BingImage(u.value, d.value)))
  }

  /** A feed's image nodes: all of them count toward the total, then the image loop reads them by the feed's names. */
  function ReadFeedImages(env: Env, es: seq<Element>, st: RunState): (o: Outcome<RunState>)
    ensures o.st.total == st.total + |es|
  {
    ProcessImages(env, es, ImageUrl, ImageDescription, st.(total := st.total + |es|))
  }

  /**
   * One market of `ReadArchiveData`: a feed that is not found or holds no
   * image gets a status-log entry; otherwise every image element counts
   * toward the total before any is tried.
   */
  function ReadMarket(env: Env, days: int, market: string, st: RunState): (o: Outcome<RunState>)
    ensures st.total <= o.st.total
    ensures o.st.downloaded - st.downloaded <= o.st.total - st.total
    ensures st.attempted <= o.st.attempted <= Max(st.attempted, env.cfg.downloadAttemptsForEachImage)
    ensures st.failed <= o.st.failed && st.log <= o.st.log
    ensures st.world.files <= o.st.world.files && st.world.requests <= o.st.world.requests
  {
    var feed := LoadFeed(env, days, market);
    if feed.LoadThrew? then Threw(st)
    else if feed.NotFound? then Done(st.(log := st.log + [StatusEntry(days, market, CouldNotLoadArchiveXml)]))
    else if |feed.images| == 0 then Done(st.(log := st.log + [StatusEntry(days, market, NoImagesXmlData)]))
    else ReadFeedImages(env, feed.images, st)
  }

  /** The loop over markets of `ReadArchiveData`; an exception ends it. */
  function ReadMarkets(env: Env, days: int, markets: seq<string>, st: RunState): (o: Outcome<RunState>)
    ensures st.total <= o.st.total
    ensures o.st.downloaded - st.downloaded <= o.st.total - st.total
    ensures st.attempted <= o.st.attempted <= Max(st.attempted, env.cfg.downloadAttemptsForEachImage)
    ensures st.failed <= o.st.failed && st.log <= o.st.log
    ensures st.world.files <= o.st.world.files && st.world.requests <= o.st.world.requests
    decreases |markets|
  {
    if markets == [] then Done(st)
    else match ReadMarket(env, days, markets[0], st)
      case Threw(s) => Threw(s)
      case Done(s) => ReadMarkets(env, days, markets[1..], s)
  }

  /** `ReadArchiveData`: all configured markets, with one attempt counter for the whole run. */
  function ReadArchive(env: Env, days: int, w: World, total: int, downloaded: int): (o: Outcome<RunState>)
    ensures total <= o.st.total && o.st.downloaded - downloaded <= o.st.total - total
    ensures 0 <= o.st.attempted <= Max(0, env.cfg.downloadAttemptsForEachImage)
    ensures w.files <= o.st.world.files && w.requests <= o.st.world.requests
  {
    ReadMarkets(env, days, env.cfg.bingMarkets, RunState(w, total, downloaded, 0, [], []))
  }

  /** The state `Main` reads and writes: the world, the static counters, and the three files it keeps. */
  datatype Machine = Machine(
    world: World,
    total: int,
    downloaded: int,
    status: StatusFile,
    ledger: Option<seq<Element>>,
    logFile: seq<StatusEntry>)

  /** `SaveFailedDownloadsXML`: an absent ledger starts empty; the new nodes go after the old ones. */
  function AppendToLedger(ledger: Option<seq<Element>>, failed: seq<BingImage>): (r: seq<Element>)
    ensures ledger.Some? ==> ledger.value <= r
    ensures |r| == (if ledger.None? then 0 else |ledger.value|) + |failed|
    ensures forall i :: 0 <= i < |failed| ==> r[|r| - |failed| + i] == ImageNode(failed[i])
  {
    (if ledger.None? then [] else ledger.value) + ImageNodes(failed)
  }

  /**
   * `RetryForFailedDownloads`, reading each ledger node's children by the
   * given names with a fresh attempt counter, then replacing the ledger with
   * the entries that still fail. `Main` passes the feed's names.
   */
  function RetryFailedDownloads(env: Env, m: Machine, urlName: string, descName: string): (r: Outcome<Machine>)
    ensures r.st.total == m.total && r.st.status == m.status && r.st.logFile == m.logFile
    ensures m.downloaded <= r.st.downloaded && m.world.files <= r.st.world.files
    ensures (m.ledger.None? || m.ledger == Some([])) ==> r == Done(m)
    ensures r.Threw? ==> r.st.ledger == m.ledger
  {
    match m.ledger
    case None => Done(m)
    case Some(es) =>
      if |es| == 0 then Done(m)
      else
        var o := ProcessImages(env, es, urlName, descName, RunState(m.world, m.total, m.downloaded, 0, [], []));
        var m' := m.(world := o.st.world, downloaded := o.st.downloaded);
        if o.Threw? then Threw(m') else Done(m'.(ledger := Some(ImageNodes(o.st.failed))))
  }

  /**
   * `Main`: the day offset, the archive pass, the three writes in order, then
   * the optional retry pass reading ledger nodes by the given child names.
   */
  function RunWith(env: Env, m: Machine, urlName: string, descName: string): (r: Outcome<Machine>)
    ensures m.total <= r.st.total && m.world.files <= r.st.world.files
    ensures m.logFile <= r.st.logFile
    ensures r.st.status == m.status || r.st.status == LastDownloaded(env.today)
  {
    match NumberOfPreviousDays(env, m.status)
    case None => Threw(m)
    case Some(days) =>
      if days < 0 then Done(m)
      else match ReadArchive(env, days, m.world, m.total, m.downloaded)
        case Threw(s) => Threw(m.(world := s.world, total := s.total, downloaded := s.downloaded))
        case Done(s) =>
          var m1 := m.(world := s.world, total := s.total, downloaded := s.downloaded);
          var m2 := if |s.failed| > 0 then m1.(ledger := Some(AppendToLedger(m1.ledger, s.failed))) else m1;
          var m3 := if |s.log| > 0 then m2.(logFile := m2.logFile + s.log) else m2;
          var m4 := if s.total > 0 && s.downloaded > 0 then m3.(status := LastDownloaded(env.today)) else m3;
          if env.cfg.retryForFailedDownloads then RetryFailedDownloads(env, m4, urlName, descName)
          else Done(m4)
  }

  /** `Main` as written: the retry pass reads the feed's child names `url` and `copyright`. */
  function Run(env: Env, m: Machine): (r: Outcome<Machine>)
    ensures m.total <= r.st.total && m.world.files <= r.st.world.files
    ensures m.logFile <= r.st.logFile
    ensures r.st.status == m.status || r.st.status == LastDownloaded(env.today)
    ensures m.ledger.Some? && r.Done? ==> r.st.ledger.Some?
  {
    RunWith(env, m, ImageUrl, ImageDescription)
  }

  // ---------------------------------------------------------------------
  // The image loop

  /** The image loop throws exactly when some element lacks the URL child or the description child. */
  lemma {:induction false} ProcessImagesThrowsIffUnreadable(env: Env, es: seq<Element>, urlName: string, descName: string, st: RunState)
    ensures ProcessImages(env, es, urlName, descName, st).Threw? <==> ParseImages(es, urlName, descName).None?
    decreases |es|
  {
    if es != [] {
      var u, d := Child(es[0], urlName), Child(es[0], descName);
      if u.Some? && d.Some? {
        ProcessImagesThrowsIffUnreadable(env, es[1..], urlName, descName, Step(env, st, BingImage(u.value, d.value)));
      }
    }
  }

  /**
   * After a complete image loop, every record with a non-empty URL counted
   * either once as downloaded or once in the failed list, the new failed
   * entries keep the elements' order, and records with an empty URL count
   * neither way.
   */
  lemma {:induction false} ProcessImagesAccounts(env: Env, es: seq<Element>, urlName: string, descName: string, st: RunState)
    requires ProcessImages(env, es, urlName, descName, st).Done?
    ensures ParseImages(es, urlName, descName).Some?
    ensures var o := ProcessImages(env, es, urlName, descName, st);
            var tried := NonEmptyUrls(ParseImages(es, urlName, descName).value);
            && (o.st.downloaded - st.downloaded) + (|o.st.failed| - |st.failed|) == |tried|
            && IsSubsequence(o.st.failed[|st.failed|..], tried)
            && (forall x :: x in tried && x !in o.st.failed[|st.failed|..]
                  ==> TargetPath(env.cfg, x.imageUrl, x.imageDescription) in o.st.world.files)
    decreases |es|
  {
    ProcessImagesThrowsIffUnreadable(env, es, urlName, descName, st);
    var o := ProcessImages(env, es, urlName, descName, st);
    if es == [] {
      assert o.st.failed[|st.failed|..] == [];
    } else {
      var u, d := Child(es[0], urlName).value, Child(es[0], descName).value;
      var img := BingImage(u, d);
      var next := Step(env, st, img);
      assert o == ProcessImages(env, es[1..], urlName, descName, next);
      var rest := ParseImages(es[1..], urlName, descName).value;
      assert ParseImages(es, urlName, descName).value == [img] + rest;
      ProcessImagesAccounts(env, es[1..], urlName, descName, next);
      var laterFailed := o.st.failed[|next.failed|..];
      StepAccounts(env, st, img, laterFailed, o.st.failed, rest);
      StepKeepsSuccesses(env, st, img, rest, o.st.failed, o.st.world.files);
    }
  }

  /**
   * A record with a URL is counted as downloaded exactly when its file is on
   * disk afterwards, and then that file is the only one added; a record
   * that joins the failed list adds no file, and while attempts remained its
   * file is absent.
   */
  lemma StepOutcome(env: Env, st: RunState, img: BingImage)
    requires img.imageUrl != ""
    ensures var r := Step(env, st, img);
            var target := TargetPath(env.cfg, img.imageUrl, img.imageDescription);
            && (r.failed == st.failed <==> r.downloaded == st.downloaded + 1)
            && (r.failed == st.failed ==> r.world.files == st.world.files + {target})
            && (r.failed != st.failed ==> r.world.files == st.world.files && r.failed == st.failed + [img])
            && (st.attempted < env.cfg.downloadAttemptsForEachImage && r.failed != st.failed ==> target !in r.world.files)
  {
    var r := Step(env, st, img);
    TryDownloadAddsOnlyTarget(env, st.world, st.attempted, img);
    assert r.failed != st.failed ==> |r.failed| == |st.failed| + 1;
  }

  /** The head step of the "downloaded means on disk" part of `ProcessImagesAccounts`. */
  lemma StepKeepsSuccesses(env: Env, st: RunState, img: BingImage, rest: seq<BingImage>, allFailed: seq<BingImage>, files: set<string>)
    requires var next := Step(env, st, img);
             && next.failed <= allFailed && next.world.files <= files
             && forall x :: x in NonEmptyUrls(rest) && x !in allFailed[|next.failed|..]
                  ==> TargetPath(env.cfg, x.imageUrl, x.imageDescription) in files
    requires st.failed <= Step(env, st, img).failed
    ensures forall x :: x in NonEmptyUrls([img] + rest) && x !in allFailed[|st.failed|..]
              ==> TargetPath(env.cfg, x.imageUrl, x.imageDescription) in files
  {
    var next := Step(env, st, img);
    var newFailed := allFailed[|st.failed|..];
    assert next.failed[|st.failed|..] <= newFailed;
    assert ([img] + rest)[1..] == rest;
    forall x | x in NonEmptyUrls([img] + rest) && x !in newFailed
      ensures TargetPath(env.cfg, x.imageUrl, x.imageDescription) in files
    {
      if x in NonEmptyUrls(rest) {
        NotInShorterSuffix(allFailed, |st.failed|, |next.failed|, x);
      } else {
        assert img.imageUrl != "" && x == img;
        StepOutcome(env, st, img);
      }
    }
  }

  /** The head step of `ProcessImagesAccounts`. */
  lemma StepAccounts(env: Env, st: RunState, img: BingImage, laterFailed: seq<BingImage>, allFailed: seq<BingImage>, rest: seq<BingImage>)
    requires var next := Step(env, st, img);
             next.failed <= allFailed && laterFailed == allFailed[|next.failed|..]
             && IsSubsequence(laterFailed, NonEmptyUrls(rest))
    ensures var next := Step(env, st, img);
            var tried := NonEmptyUrls([img] + rest);
            && (next.downloaded - st.downloaded) + (|next.failed| - |st.failed|) == |tried| - |NonEmptyUrls(rest)|
            && IsSubsequence(allFailed[|st.failed|..], tried)
  {
    var next := Step(env, st, img);
    assert ([img] + rest)[1..] == rest;
    if img.imageUrl == "" {
      assert NonEmptyUrls([img] + rest) == NonEmptyUrls(rest);
      assert allFailed[|st.failed|..] == laterFailed;
    } else {
      assert NonEmptyUrls([img] + rest) == [img] + NonEmptyUrls(rest);
      SubsequenceCons(img, laterFailed, NonEmptyUrls(rest));
      if next.failed == st.failed {
        assert allFailed[|st.failed|..] == laterFailed;
      } else {
        assert allFailed[|st.failed|..] == [img] + laterFailed;
      }
    }
  }

  /**
   * Once the shared attempt counter is used up, the rest of the loop downloads
   * nothing and requests nothing: every record with a non-empty URL goes
   * straight to the failed list, in order.
   */
  lemma {:induction false} ExhaustedBudgetFailsWithoutRequests(env: Env, es: seq<Element>, urlName: string, descName: string, st: RunState)
    requires st.attempted >= env.cfg.downloadAttemptsForEachImage
    requires ParseImages(es, urlName, descName).Some?
    ensures ProcessImages(env, es, urlName, descName, st)
            == Done(st.(failed := st.failed + NonEmptyUrls(ParseImages(es, urlName, descName).value)))
    decreases |es|
  {
    if es == [] {
      assert st.failed + [] == st.failed;
    } else {
      var u, d := Child(es[0], urlName).value, Child(es[0], descName).value;
      var img := BingImage(u, d);
      var recs := ParseImages(es, urlName, descName).value;
      var rest := ParseImages(es[1..], urlName, descName).value;
      assert recs == [img] + rest;
      assert recs[1..] == rest;
      var next := if u == "" then st else st.(failed := st.failed + [img]);
      assert Step(env, st, img) == next;
      ExhaustedBudgetFailsWithoutRequests(env, es[1..], urlName, descName, next);
      if u != "" {
        assert NonEmptyUrls(recs) == [img] + NonEmptyUrls(rest);
        assert st.failed + [img] + NonEmptyUrls(rest) == st.failed + NonEmptyUrls(recs);
      }
    }
  }

  // ---------------------------------------------------------------------
  // The market loop

  /** The log entries from index `from` on carry offset `days` and a market of `markets`; scheduled, only "no images". */
  predicate EntriesFrom(log: seq<StatusEntry>, from: nat, days: int, markets: seq<string>, scheduled: bool)
  {
    forall i :: from <= i < |log| ==>
      && log[i].days == days
      && log[i].market in markets
      && (scheduled ==> log[i].message == NoImagesXmlData)
  }

  /** One more entry in front, for the head market, extends `EntriesFrom` to the whole market list. */
  lemma EntriesFromHead(log: seq<StatusEntry>, from: nat, days: int, markets: seq<string>, scheduled: bool)
    requires markets != [] && from < |log|
    requires log[from].days == days && log[from].market == markets[0]
    requires scheduled ==> log[from].message == NoImagesXmlData
    requires EntriesFrom(log, from + 1, days, markets[1..], scheduled)
    ensures EntriesFrom(log, from, days, markets, scheduled)
  {
    assert forall x :: x in markets[1..] ==> x in markets;
  }

  /**
   * Status-log entries carry the run's day offset and one of the configured
   * markets; in scheduled mode a feed that fails to load throws instead, so
   * "Could not load archive XML" never appears.
   */
  lemma {:induction false} ReadMarketsLog(env: Env, days: int, markets: seq<string>, st: RunState)
    ensures EntriesFrom(ReadMarkets(env, days, markets, st).st.log, |st.log|, days, markets, !env.cfg.downloadByDemand)
    decreases |markets|
  {
    if markets != [] {
      var market := markets[0];
      var scheduled := !env.cfg.downloadByDemand;
      var o := ReadMarkets(env, days, markets, st);
      var one := ReadMarket(env, days, market, st);
      if one.Done? {
        assert o == ReadMarkets(env, days, markets[1..], one.st);
        ReadMarketsLog(env, days, markets[1..], one.st);
        if |one.st.log| > |st.log| {
          var f := LoadFeed(env, days, market);
          assert f.NotFound? || (f.Loaded? && |f.images| == 0);
          assert o.st.log[|st.log|] == one.st.log[|st.log|];
          EntriesFromHead(o.st.log, |st.log|, days, markets, scheduled);
        } else {
          assert forall x :: x in markets[1..] ==> x in markets;
        }
      }
    }
  }

  /**
   * Reference definition of the status log a pass over `markets` owes: in
   * market order, "Could not load archive XML" for each market whose feed
   * is not found, "No images XML data" for each whose feed holds no image
   * node, and nothing for a market with images.
   */
  function MarketEntries(env: Env, days: int, markets: seq<string>): seq<StatusEntry>
    decreases |markets|
  {
    if markets == [] then []
    else
      var feed := LoadFeed(env, days, markets[0]);
      var entry := if feed.NotFound? then [StatusEntry(days, markets[0], CouldNotLoadArchiveXml)]
                   else if feed.Loaded? && |feed.images| == 0 then [StatusEntry(days, markets[0], NoImagesXmlData)]
                   else [];
      entry + MarketEntries(env, days, markets[1..])
  }

  /** One market's share of `ReadMarketsLogsEveryEmptyFeed`. */
  lemma ReadMarketLogsItsEntry(env: Env, days: int, market: string, st: RunState)
    requires ReadMarket(env, days, market, st).Done?
    ensures ReadMarket(env, days, market, st).st.log == st.log + MarketEntries(env, days, [market])
  {
    var feed := LoadFeed(env, days, market);
    assert [market][1..] == [];
    if feed.Loaded? && |feed.images| > 0 {
      assert MarketEntries(env, days, [market]) == [];
      assert st.log + [] == st.log;
    }
  }

  /** A completed pass adds to the status log exactly the entries its markets owe, in market order. */
  lemma {:induction false} ReadMarketsLogsEveryEmptyFeed(env: Env, days: int, markets: seq<string>, st: RunState)
    requires ReadMarkets(env, days, markets, st).Done?
    ensures ReadMarkets(env, days, markets, st).st.log == st.log + MarketEntries(env, days, markets)
    decreases |markets|
  {
    if markets == [] {
      assert st.log + [] == st.log;
    } else {
      var one := ReadMarket(env, days, markets[0], st);
      var entry := MarketEntries(env, days, [markets[0]]);
      var rest := MarketEntries(env, days, markets[1..]);
      assert ReadMarkets(env, days, markets, st) == ReadMarkets(env, days, markets[1..], one.st);
      ReadMarketsLogsEveryEmptyFeed(env, days, markets[1..], one.st);
      ReadMarketLogsItsEntry(env, days, markets[0], st);
      assert [markets[0]][1..] == [];
      assert MarketEntries(env, days, markets) == entry + rest;
      assert one.st.log + rest == st.log + (entry + rest);
    }
  }

  /**
   * A run starts the attempt counter at zero once: it never exceeds the
   * configured attempts, and `filesDownloaded` never passes
   * `totalFilesToDownload`.
   */
  lemma ReadArchiveCounts(env: Env, days: int, w: World, total: int, downloaded: int)
    requires downloaded <= total
    ensures var o := ReadArchive(env, days, w, total, downloaded);
            && o.st.downloaded <= o.st.total
            && 0 <= o.st.attempted <= Max(0, env.cfg.downloadAttemptsForEachImage)
  {
  }

  // ---------------------------------------------------------------------
  // The ledger

  /** Reading the ledger's nodes by the names they were written with gives back the records. */
  lemma {:induction false} LedgerRoundTrip(imgs: seq<BingImage>)
    ensures ParseImages(ImageNodes(imgs), Url, Description) == Some(imgs)
  {
    if imgs != [] {
      LedgerRoundTrip(imgs[1..]);
      var es := ImageNodes(imgs);
      assert es[1..] == ImageNodes(imgs[1..]);
      assert Child(es[0], Url) == Some(imgs[0].imageUrl) && Child(es[0], Description) == Some(imgs[0].imageDescription);
      assert BingImage(imgs[0].imageUrl, imgs[0].imageDescription) == imgs[0];
      assert [imgs[0]] + imgs[1..] == imgs;
    }
  }

  /** Appending keeps every earlier node first and every node written by the program. */
  lemma AppendToLedgerKeeps(ledger: Option<seq<Element>>, failed: seq<BingImage>)
    requires ledger.Some? ==> WrittenByProgram(ledger.value)
    ensures ledger.Some? ==> ledger.value <= AppendToLedger(ledger, failed)
    ensures WrittenByProgram(AppendToLedger(ledger, failed))
    ensures |AppendToLedger(ledger, failed)| == (if ledger.None? then 0 else |ledger.value|) + |failed|
  {
  }

  /**
   * The retry pass as written: the ledger's first node has no `url` child, so
   * reading it throws before any download and before the rewrite; nothing
   * changes.
   */
  lemma RetryAsWrittenThrows(env: Env, m: Machine)
    requires m.ledger.Some? && |m.ledger.value| > 0 && WrittenByProgram(m.ledger.value)
    ensures RetryFailedDownloads(env, m, ImageUrl, ImageDescription) == Threw(m)
  {
    var es := m.ledger.value;
    FeedNamesAreNotLedgerNames();
    assert ImageUrl !in es[0].Keys;
    var st := RunState(m.world, m.total, m.downloaded, 0, [], []);
    assert ProcessImages(env, es, ImageUrl, ImageDescription, st) == Threw(st);
    assert m.(world := m.world, downloaded := m.downloaded) == m;
  }

  /**
   * The retry pass reading the names the ledger is written with: it
   * completes; the new ledger is an in-order selection of the entries with a
   * non-empty URL; the entries downloaded and the entries kept add up to
   * those; an entry that left the ledger has its file on disk; entries with
   * an empty URL are dropped; with no attempts configured every entry with a
   * URL stays.
   */
  lemma RetryWithLedgerNamesReconciles(env: Env, m: Machine, imgs: seq<BingImage>)
    requires m.ledger == Some(ImageNodes(imgs))
    ensures var o := RetryFailedDownloads(env, m, Url, Description);
            && o.Done?
            && (imgs == [] ==> o.st == m)
            && o.st.ledger.Some? && WrittenByProgram(o.st.ledger.value)
            && ParseImages(o.st.ledger.value, Url, Description).Some?
            && o.st.total == m.total && o.st.status == m.status && o.st.logFile == m.logFile
            && (imgs != [] ==>
                  var still := ParseImages(o.st.ledger.value, Url, Description).value;
                  && IsSubsequence(still, NonEmptyUrls(imgs))
                  && (o.st.downloaded - m.downloaded) + |still| == |NonEmptyUrls(imgs)|
                  && (forall x :: x in NonEmptyUrls(imgs) && x !in still
                        ==> TargetPath(env.cfg, x.imageUrl, x.imageDescription) in o.st.world.files)
                  && (env.cfg.downloadAttemptsForEachImage <= 0 ==> still == NonEmptyUrls(imgs)))
  {
    LedgerRoundTrip(imgs);
    var es := ImageNodes(imgs);
    if imgs != [] {
      var st := RunState(m.world, m.total, m.downloaded, 0, [], []);
      ProcessImagesThrowsIffUnreadable(env, es, Url, Description, st);
      ProcessImagesAccounts(env, es, Url, Description, st);
      var o := ProcessImages(env, es, Url, Description, st);
      assert o.st.failed[|st.failed|..] == o.st.failed;
      LedgerRoundTrip(o.st.failed);
      if env.cfg.downloadAttemptsForEachImage <= 0 {
        ExhaustedBudgetFailsWithoutRequests(env, es, Url, Description, st);
      }
    }
  }

  // ---------------------------------------------------------------------
  // Main

  /** An unreadable progress file throws before anything; a negative offset ends the run with nothing fetched or written. */
  lemma RunShortCircuits(env: Env, m: Machine)
    ensures NumberOfPreviousDays(env, m.status).None? ==> Run(env, m) == Threw(m)
    ensures NumberOfPreviousDays(env, m.status).Some? && NumberOfPreviousDays(env, m.status).value < 0
            ==> Run(env, m) == Done(m)
  {
  }

  /**
   * After a complete archive pass, with a ledger that only the program has
   * written: the ledger becomes old ++ failed (no de-duplication) only when
   * something failed; the log gets the pass's entries; the progress date
   * becomes today exactly when the pass counted an image and downloaded one;
   * and an enabled retry pass throws exactly when the ledger is non-empty,
   * changing nothing.
   */
  lemma RunPersistence(env: Env, m: Machine, days: int, s: RunState)
    requires m.ledger.Some? ==> WrittenByProgram(m.ledger.value)
    requires NumberOfPreviousDays(env, m.status) == Some(days) && days >= 0
    requires ReadArchive(env, days, m.world, m.total, m.downloaded) == Done(s)
    ensures var r := Run(env, m);
            && r.st.ledger == (if |s.failed| > 0 then Some(AppendToLedger(m.ledger, s.failed)) else m.ledger)
            && r.st.logFile == m.logFile + s.log
            && r.st.status == (if s.total > 0 && s.downloaded > 0 then LastDownloaded(env.today) else m.status)
            && r.st.world == s.world && r.st.total == s.total && r.st.downloaded == s.downloaded
            && (r.Threw? <==> env.cfg.retryForFailedDownloads && r.st.ledger.Some? && |r.st.ledger.value| > 0)
  {
    assert m.logFile + [] == m.logFile;
    var ledger := if |s.failed| > 0 then Some(AppendToLedger(m.ledger, s.failed)) else m.ledger;
    if |s.failed| > 0 {
      AppendToLedgerKeeps(m.ledger, s.failed);
    }
    if env.cfg.retryForFailedDownloads && ledger.Some? && |ledger.value| > 0 {
      var m4 := m.(world := s.world, total := s.total, downloaded := s.downloaded, ledger := ledger,
                   logFile := m.logFile + s.log,
                   status := if s.total > 0 && s.downloaded > 0 then LastDownloaded(env.today) else m.status);
      RetryAsWrittenThrows(env, m4);
    }
  }

  /** An exception in the archive pass leaves the ledger, the log and the progress date as they were. */
  lemma RunAbortKeepsFiles(env: Env, m: Machine, days: int)
    requires NumberOfPreviousDays(env, m.status) == Some(days) && days >= 0
    requires ReadArchive(env, days, m.world, m.total, m.downloaded).Threw?
    ensures var r := Run(env, m);
            r.Threw? && r.st.ledger == m.ledger && r.st.logFile == m.logFile && r.st.status == m.status
  {
  }

  /**
   * Over runs of the program as written, a ledger that only the program has
   * written stays so and never loses an entry: the retry pass never
   * reconciles it.
   */
  lemma RunKeepsLedgerHistory(env: Env, m: Machine)
    requires m.ledger.Some? ==> WrittenByProgram(m.ledger.value)
    ensures var r := Run(env, m);
            && (r.st.ledger.Some? ==> WrittenByProgram(r.st.ledger.value))
            && (m.ledger.Some? ==> r.st.ledger.Some? && m.ledger.value <= r.st.ledger.value)
  {
    var nd := NumberOfPreviousDays(env, m.status);
    if nd.Some? && nd.value >= 0 {
      var o := ReadArchive(env, nd.value, m.world, m.total, m.downloaded);
      if o.Done? {
        RunPersistence(env, m, nd.value, o.st);
        if |o.st.failed| > 0 {
          AppendToLedgerKeeps(m.ledger, o.st.failed);
        }
      }
    }
  }

  /**
   * In scheduled mode the progress date only moves forward: a run that
   * changes it sets it to today, which is later than the day it replaces.
   */
  lemma ProgressMovesForward(env: Env, m: Machine)
    requires !env.cfg.downloadByDemand
    ensures var r := Run(env, m);
            r.st.status != m.status ==>
              && r.st.status == LastDownloaded(env.today)
              && (m.status.LastDownloaded? ==> m.status.day < env.today)
  {
    var nd := NumberOfPreviousDays(env, m.status);
    if nd.Some? && nd.value >= 0 {
      var o := ReadArchive(env, nd.value, m.world, m.total, m.downloaded);
      if o.Done? && env.cfg.retryForFailedDownloads {
        var s := o.st;
        var m1 := m.(world := s.world, total := s.total, downloaded := s.downloaded);
        var m2 := if |s.failed| > 0 then m1.(ledger := Some(AppendToLedger(m1.ledger, s.failed))) else m1;
        var m3 := if |s.log| > 0 then m2.(logFile := m2.logFile + s.log) else m2;
        var m4 := if s.total > 0 && s.downloaded > 0 then m3.(status := LastDownloaded(env.today)) else m3;
        assert RetryFailedDownloads(env, m4, ImageUrl, ImageDescription).st.status == m4.status;
      }
    }
  }

  /**
   * `Main` with the retry pass reading the names the ledger is written with:
   * after a complete archive pass with retry enabled, the run completes and
   * the ledger keeps, in order, records of the old ledger and of the pass's
   * failures that have a URL; each such record either downloads on the
   * retry or stays.
   */
  lemma RunWithLedgerNamesReconciles(env: Env, m: Machine, imgs: seq<BingImage>, days: int, s: RunState)
    requires m.ledger == None || m.ledger == Some(ImageNodes(imgs))
    requires NumberOfPreviousDays(env, m.status) == Some(days) && days >= 0
    requires ReadArchive(env, days, m.world, m.total, m.downloaded) == Done(s)
    requires env.cfg.retryForFailedDownloads
    ensures var r := RunWith(env, m, Url, Description);
            var tried := NonEmptyUrls((if m.ledger.None? then [] else imgs) + s.failed);
            && r.Done?
            && (r.st.ledger.Some? ==>
                  && WrittenByProgram(r.st.ledger.value)
                  && ParseImages(r.st.ledger.value, Url, Description).Some?
                  && var still := ParseImages(r.st.ledger.value, Url, Description).value;
                     && IsSubsequence(still, tried)
                     && (r.st.downloaded - s.downloaded) + |still| == |tried|
                     && forall x :: x in tried && x !in still
                          ==> TargetPath(env.cfg, x.imageUrl, x.imageDescription) in r.st.world.files)
  {
    var earlier := if m.ledger.None? then [] else imgs;
    var all := earlier + s.failed;
    var m1 := m.(world := s.world, total := s.total, downloaded := s.downloaded);
    var m2 := if |s.failed| > 0 then m1.(ledger := Some(AppendToLedger(m1.ledger, s.failed))) else m1;
    var m3 := if |s.log| > 0 then m2.(logFile := m2.logFile + s.log) else m2;
    var m4 := if s.total > 0 && s.downloaded > 0 then m3.(status := LastDownloaded(env.today)) else m3;
    assert RunWith(env, m, Url, Description) == RetryFailedDownloads(env, m4, Url, Description);
    if |s.failed| > 0 {
      ImageNodesAppend(earlier, s.failed);
      assert m4.ledger == Some(ImageNodes(all));
      RetryWithLedgerNamesReconciles(env, m4, all);
    } else {
      assert all == earlier;
      if m.ledger.Some? {
        RetryWithLedgerNamesReconciles(env, m4, all);
      }
    }
  }
}
