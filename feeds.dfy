/** Loading a market's archive feed (`GetImagesXML` with `VerifyImagesXML`). */
module Feeds {
  import opened Model
  import opened Fetching

  /** A loaded feed's image elements; no feed found on demand; or the exception of a scheduled load. */
  datatype FeedResult = Loaded(images: seq<Element>) | NotFound | LoadThrew

  /** On demand: try the offsets `days`, `days - 1`, ..., 0 and keep the first feed that loads. */
  function FirstAvailable(feed: (int, string) -> Option<seq<Element>>, days: int, market: string): (r: FeedResult)
    ensures !r.LoadThrew?
    ensures r.Loaded? ==> 0 <= days
    decreases if days < 0 then 0 else days + 1
  {
    if days < 0 then NotFound
    else match feed(days, market)
      case Some(es) => Loaded(es)
      case None => FirstAvailable(feed, days - 1, market)
  }

  /** `GetImagesXML`: the fallback search on demand; one unguarded load when scheduled. */
  function LoadFeed(env: Env, days: int, market: string): (r: FeedResult)
    ensures r.LoadThrew? <==> !env.cfg.downloadByDemand && env.feed(days, market).None?
    ensures r.NotFound? ==> env.cfg.downloadByDemand
    ensures !env.cfg.downloadByDemand && r.Loaded? ==> env.feed(days, market) == Some(r.images)
  {
    if env.cfg.downloadByDemand then FirstAvailable(env.feed, days, market)
    else match env.feed(days, market)
      case Some(es) => Loaded(es)
      case None => LoadThrew
  }

  /**
   * `tried` is how the on-demand search went: the offsets `days`, `days - 1`,
   * ... in that order, at most `days + 1` of them, each but the last without
   * a feed; a found feed is the last one's, and with none found every offset
   * down to 0 was tried.
   */
  predicate SearchedDownward(feed: (int, string) -> Option<seq<Element>>, days: int, market: string, tried: seq<int>, r: FeedResult)
  {
    && |tried| <= Max(days + 1, 0)
    && (forall i :: 0 <= i < |tried| ==> tried[i] == days - i)
    && (forall i :: 0 <= i < |tried| - 1 ==> feed(tried[i], market).None?)
    && (r.Loaded? ==> |tried| > 0 && feed(tried[|tried| - 1], market) == Some(r.images))
    && (r.NotFound? ==> |tried| == Max(days + 1, 0) && forall i :: 0 <= i < |tried| ==> feed(tried[i], market).None?)
  }

  /**
   * The on-demand search never throws, finds a feed exactly when some offset
   * from 0 to `days` has one, and then returns the one at the largest such
   * offset.
   */
  lemma {:induction false} FirstAvailableIsLatestLoadable(feed: (int, string) -> Option<seq<Element>>, days: int, market: string)
    ensures var r := FirstAvailable(feed, days, market);
            && !r.LoadThrew?
            && (r.Loaded? <==> exists k :: 0 <= k <= days && feed(k, market).Some?)
            && (r.Loaded? ==> exists k :: 0 <= k <= days && feed(k, market) == Some(r.images)
                                        && forall j :: k < j <= days ==> feed(j, market).None?)
    decreases if days < 0 then 0 else days + 1
  {
    if days >= 0 && feed(days, market).None? {
      FirstAvailableIsLatestLoadable(feed, days - 1, market);
      var r := FirstAvailable(feed, days, market);
      if r.Loaded? {
        var k :| 0 <= k <= days - 1 && feed(k, market) == Some(r.images)
                 && forall j :: k < j <= days - 1 ==> feed(j, market).None?;
        assert forall j :: k < j <= days ==> feed(j, market).None?;
      } else {
        assert forall k :: 0 <= k <= days ==> feed(k, market).None? by {
          forall k | 0 <= k <= days ensures feed(k, market).None? {
            if k < days {
              assert !(0 <= k <= days - 1 && feed(k, market).Some?);
            }
          }
        }
      }
    }
  }
}
