/**
 * The day offset a run fetches (`GetNumberOfPreviousDays` with
 * `GetDownloadStartDate`). Dates are whole day numbers; today is a parameter.
 */
module Schedule {
  import opened Model
  import opened Fetching

  /**
   * The progress file as `GetDownloadStartDate` finds it. `Malformed` stands
   * for a file that `XElement.Load` or `Convert.ToDateTime` rejects, which
   * throws.
   */
  datatype StatusFile = Absent | Malformed | NoDateNode | LastDownloaded(day: int)

  /** Today without usable progress, else the day after the last downloaded one; None where reading throws. */
  function DownloadStartDate(today: int, status: StatusFile): (r: Option<int>)
    ensures r.None? <==> status.Malformed?
    ensures status.LastDownloaded? ==> r == Some(status.day + 1)
    ensures r.Some? ==> (r.value > today <==> status.LastDownloaded? && status.day >= today)
  {
    match status
    case Absent => Some(today)
    case NoDateNode => Some(today)
    case Malformed => None
    case LastDownloaded(day) => Some(day + 1)
  }

  /** The configured offset on demand (the progress file is not read); otherwise today minus the start date. */
  function NumberOfPreviousDays(env: Env, status: StatusFile): (r: Option<int>)
    ensures r.None? <==> !env.cfg.downloadByDemand && status.Malformed?
    ensures env.cfg.downloadByDemand ==> r == Some(env.cfg.numberOfPreviousDays)
  {
    if env.cfg.downloadByDemand then Some(env.cfg.numberOfPreviousDays)
    else match DownloadStartDate(env.today, status)
      case None => None
      case Some(start) => Some(env.today - start)
  }

  /**
   * Scheduled runs: no progress fetches today only (offset 0); a recorded day
   * d gives today - (d + 1); the offset is negative, the "already downloaded"
   * case, exactly when d is today or later; an unreadable file throws.
   */
  lemma ScheduledDayOffset(env: Env, status: StatusFile)
    requires !env.cfg.downloadByDemand
    ensures status.Absent? || status.NoDateNode? ==> NumberOfPreviousDays(env, status) == Some(0)
    ensures status.LastDownloaded? ==> NumberOfPreviousDays(env, status) == Some(env.today - (status.day + 1))
    ensures NumberOfPreviousDays(env, status).None? <==> status.Malformed?
    ensures (NumberOfPreviousDays(env, status).Some? && NumberOfPreviousDays(env, status).value < 0)
            <==> (status.LastDownloaded? && status.day >= env.today)
  {
  }

  /** On demand the offset is the configured one, whatever the progress file holds. */
  lemma OnDemandIgnoresProgress(env: Env, s1: StatusFile, s2: StatusFile)
    requires env.cfg.downloadByDemand
    ensures NumberOfPreviousDays(env, s1) == NumberOfPreviousDays(env, s2) == Some(env.cfg.numberOfPreviousDays)
  {
  }
}
