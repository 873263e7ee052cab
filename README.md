# BingImagesDownloader, modelled in Dafny

BingImagesDownloader is a console program. It downloads the Bing "image of
the day" wallpapers from the Bing image archive feed into a local directory.
Every run does the following, in order:

1. **Day offset.** It works out how many days back to start.
   - On demand, this is a configured number.
   - When scheduled, it is the day after the date recorded in the progress file `Status.xml`.
2. **Archive pass.** For every configured market it loads the archive feed.
   - On demand, a feed that does not load is retried with one day fewer, down to today.
   - It downloads every image not already on disk, named after its sanitised description.
   - Each image is tried up to a configured number of attempts. That counter is shared by the whole pass.
3. **Bookkeeping.** It writes three files:
   - failed downloads are appended to the ledger `FailedDownloads.xml`;
   - "no data" notes go to a daily status log;
   - today goes to the progress file.
4. **Retry pass (optional).** It is meant to retry the ledger's entries and rewrite the ledger with the ones that still fail. As written, it throws on the first entry, because it reads the entries by other child names than the ledger is written with (see Findings).

The model covers `Program.cs`, except as listed under Left out:

- `urls.dfy`: `GetCorrectedURL` and the file extension it decides.
- `filenames.dfy`: `GetImageFileName`.
- `fetching.dfy`: `DownloadImage` and the attempt loop, as functions.
  - The file system is a set of paths.
  - The network is an oracle `fetch(n, url)` that tells whether the n-th image request succeeds.
  - The archive is an oracle `feed(days, market)` that gives a feed's image elements, or nothing where loading throws.
- `feeds.dfy`: `GetImagesXML` with `VerifyImagesXML`.
- `schedule.dfy`: `GetNumberOfPreviousDays` with `GetDownloadStartDate`. Dates are day numbers, and today is a parameter.
- `runs.dfy`: reference functions for each pass and for `Main`, and the lemmas about them.
  - An exception is an outcome `Threw(state)`: `Main` catches it and writes nothing more.
- `program.dfy`: the class `Program`, whose fields the source updates in place:
  - the static counters `totalFilesToDownload` and `filesDownloaded`;
  - the image files and the requests;
  - the progress file, the ledger and the status log.

  Its methods are the source's loops. Each is proved equal to its reference function.
- `model.dfy`: the `BingImage` record, the XML node names of `XMLData`, and an XML element seen as a map from child name to text.
- `strings.dfy`, `sequences.dfy`: the string search (`IndexOf`, `Contains`, `IsNullOrWhiteSpace`) and subsequence facts.

Where the code departs from what it evidently intends, the model follows the code:

- A non-empty URL whose corrected form is empty (a whitespace-only URL, one with neither `.jpg` nor `.png`, or one that starts with the extension) is not skipped. Only the empty URL is skipped, by the image loops. `DownloadImage` still requests `domain + "/"`.
- In scheduled mode a feed that fails to load is not logged as "Could not load archive XML". `XElement.Load` throws, and the whole run ends in `Main`'s catch.
- The attempt counter in `ReadArchiveData` is set to zero once per run, not once per image. After the configured number of failed attempts, every later image fails without a request.
- The retry pass reads ledger entries by the feed's child names (`url`, `copyright`), while the ledger is written with `URL` and `Description`. See Findings.

## Model

| member | source | states |
|---|---|---|
| Urls.CorrectedUrl | BingImagesDownloader/Program.cs:245-273 | the corrected URL is a prefix of the URL, and is either empty or longer than four characters and ending in `.jpg` or `.png` |
| Urls.CorrectedUrlJpg | BingImagesDownloader/Program.cs:251-268 | with a `.jpg` in the URL, the result is the URL cut after its first `.jpg`, or empty when that `.jpg` starts the URL |
| Urls.CorrectedUrlPng | BingImagesDownloader/Program.cs:251-268 | with no `.jpg`, a `.png` decides in the same way, including a `.png` at the start |
| Urls.CorrectedUrlNeither | BingImagesDownloader/Program.cs:249-272 | a URL with neither extension corrects to the empty string |
| Urls.CorrectedUrlIdempotent | BingImagesDownloader/Program.cs:245-273 | correcting a corrected URL changes nothing |
| Urls.ExtensionOfCorrected | BingImagesDownloader/Program.cs:288-300 | the extension given to the file is the last four characters of a non-empty corrected URL, and empty otherwise |
| FileNames.AsciiOnly | BingImagesDownloader/Program.cs:226 | only ASCII characters remain, in their original order |
| FileNames.AsciiOnlyAppend | BingImagesDownloader/Program.cs:226 | the removal works character by character: a concatenation is filtered piecewise |
| FileNames.AsciiOnlyChar | BingImagesDownloader/Program.cs:226 | a single character is kept exactly when it is ASCII |
| FileNames.AsciiOnlyKeepsAscii | BingImagesDownloader/Program.cs:226 | an ASCII-only string is unchanged |
| FileNames.Without | BingImagesDownloader/Program.cs:230 | the character no longer occurs, and the rest keeps its order |
| FileNames.StripChars | BingImagesDownloader/Program.cs:227-230 | no invalid character remains, and the rest keeps its order |
| FileNames.StripCharsIsKeepValid | BingImagesDownloader/Program.cs:229-230 | removing the invalid characters one at a time equals filtering them out in a single pass |
| FileNames.Truncate | BingImagesDownloader/Program.cs:232-233 | the result is the prefix of length min(length, 230) |
| FileNames.ImageFileName | BingImagesDownloader/Program.cs:223-237 | the file name is ASCII only, has no invalid character, has at most 230 characters, and is a subsequence of the description |
| FileNames.ImageFileNameIsSanitizedPrefix | BingImagesDownloader/Program.cs:223-237 | the file name is the first 230 of the description's characters that are ASCII and not invalid: every such character is kept, in order, up to the limit |
| FileNames.ImageFileNameOfValid | BingImagesDownloader/Program.cs:223-237 | a description that is ASCII only, free of invalid characters and at most 230 long is its own file name |
| FileNames.SanitizedAppend | BingImagesDownloader/Program.cs:226-230 | the characters kept from a concatenation are those kept from each part, in order |
| FileNames.ImageFileNameIdempotent | BingImagesDownloader/Program.cs:223-237 | sanitising a sanitised name changes nothing |
| Model.ImageNode | BingImagesDownloader/Program.cs:367-375 | a ledger node has exactly a `URL` child and a `Description` child, holding the record's two fields |
| Model.ImageNodes | BingImagesDownloader/Program.cs:365-378 | one node per record, in list order |
| Model.ImageNodesAppend | BingImagesDownloader/Program.cs:365-378 | writing two lists of records gives the first list's nodes, then the second's |
| Model.FeedNamesAreNotLedgerNames | BingImagesDownloader/App_Code/Model/XMLData.cs:14-20 | the feed's child names `url` and `copyright` differ from the ledger's `URL` and `Description` |
| Fetching.Download | BingImagesDownloader/Program.cs:280-321 | the result is true exactly when the target file exists afterwards; an existing file gives success with no request; at most one request is added, and no file is lost |
| Fetching.DownloadRequestsMissingFile | BingImagesDownloader/Program.cs:304-318 | a missing target is requested once, at domain + "/" + corrected URL; the request's outcome is the result, and the file exists exactly on success |
| Fetching.EmptyCorrectedUrlStillRequests | BingImagesDownloader/Program.cs:286-311 | an empty corrected URL still requests domain + "/" |
| Fetching.TryDownload | BingImagesDownloader/Program.cs:188-199 | the attempt loop succeeds only below the attempt limit, with the file present; an existing file succeeds at once with no request; after a failure the counter is at the limit, the file is absent, and one request was made per attempt used; an exhausted counter does nothing |
| Fetching.TryDownloadAddsOnlyTarget | BingImagesDownloader/Program.cs:188-199 | the attempt loop adds the image's own file on success and no file at all on failure |
| Fetching.TryDownloadStopsAtFirstSuccess | BingImagesDownloader/Program.cs:188-199 | for a missing file, every request goes to the corrected URL, every request before the last failed, and a success comes from the last request: the loop stops at the first success |
| Fetching.FailsTwiceThenSucceeds | BingImagesDownloader/Program.cs:188-199 | with three attempts and a fetch that fails twice and then succeeds, the image is downloaded after three requests, with two attempts used |
| Feeds.FirstAvailable | BingImagesDownloader/Program.cs:484-494 | the on-demand search never throws, and finds a feed only for a non-negative offset |
| Feeds.LoadFeed | BingImagesDownloader/Program.cs:480-499 | only a scheduled load throws, exactly when that day's feed does not load; only on demand is no feed found; a scheduled load gives that day's feed |
| Feeds.FirstAvailableIsLatestLoadable | BingImagesDownloader/Program.cs:484-494 | the on-demand search never throws, finds a feed exactly when some offset from 0 to `days` has one, and returns the one at the largest such offset |
| Schedule.DownloadStartDate | BingImagesDownloader/Program.cs:113-131 | only an unreadable progress file gives no date; a recorded day gives the day after; the start lies after today exactly when the recorded day is today or later |
| Schedule.NumberOfPreviousDays | BingImagesDownloader/Program.cs:96-106 | the offset is missing exactly when a scheduled run meets an unreadable progress file; on demand it is the configured number |
| Schedule.ScheduledDayOffset | BingImagesDownloader/Program.cs:96-131 | scheduled: with no progress the offset is 0; a recorded day d gives today - (d + 1); the offset is negative exactly when d is today or later; an unreadable file throws |
| Schedule.OnDemandIgnoresProgress | BingImagesDownloader/Program.cs:100-103 | on demand the offset is the configured one, whatever the progress file holds |
| Runs.ParseImages | BingImagesDownloader/Program.cs:181-182 | the elements are readable exactly when every one has both children; then the i-th record holds the i-th element's URL child and description child |
| Runs.NonEmptyUrls | BingImagesDownloader/Program.cs:184 | the records tried all have a URL; every record with a URL is among them; they keep their order |
| Runs.NonEmptyUrlsAppend | BingImagesDownloader/Program.cs:184 | the selection works record by record: a concatenation is selected piecewise |
| Runs.Step | BingImagesDownloader/Program.cs:184-202 | a record with an empty URL changes nothing; any other record is either counted as downloaded or appended to the failed list |
| Runs.StepOutcome | BingImagesDownloader/Program.cs:184-202 | a record with a URL is counted as downloaded exactly when it stays off the failed list, and then its file is the one file added; a failed record adds no file, and while attempts remained its file is absent |
| Runs.ProcessImages | BingImagesDownloader/Program.cs:179-204 | the image loop keeps the total and the log, keeps the counter within the attempt limit, only grows the failed list, the files and the requests, and counts at most one outcome per element |
| Runs.ReadFeedImages | BingImagesDownloader/Program.cs:176 | every image node of a feed counts toward the total before any is tried |
| Runs.ReadMarket | BingImagesDownloader/Program.cs:166-211 | one market never counts more downloads than images added to the total, keeps the counter within the limit, and only extends the failed list, the log, the files and the requests |
| Runs.ReadMarkets | BingImagesDownloader/Program.cs:166-211 | the same bounds over all markets |
| Runs.ProcessImagesThrowsIffUnreadable | BingImagesDownloader/Program.cs:181-182 | the image loop throws exactly when some element lacks its URL child or its description child |
| Runs.ProcessImagesAccounts | BingImagesDownloader/Program.cs:179-204 | after the loop, each record with a non-empty URL is counted exactly once, as downloaded or as failed; the new failures keep the feed's order; every record with a URL that is not among the new failures has its file on disk |
| Runs.StepAccounts | BingImagesDownloader/Program.cs:184-202 | one record's share of that accounting |
| Runs.StepKeepsSuccesses | BingImagesDownloader/Program.cs:184-202 | one record's share of "not failed means on disk" |
| Runs.ExhaustedBudgetFailsWithoutRequests | BingImagesDownloader/Program.cs:157-202 | once the shared counter reaches the limit, the rest of the loop makes no request and fails every record with a URL, in order |
| Runs.ReadMarketsLog | BingImagesDownloader/Program.cs:166-211 | status entries carry the run's offset and a configured market; scheduled runs never log "Could not load archive XML" |
| Runs.ReadMarketsLogsEveryEmptyFeed | BingImagesDownloader/Program.cs:166-211 | a completed pass adds to the status log exactly one entry per market whose feed is not found ("Could not load archive XML") or holds no image node ("No images XML data"), in market order, and none for a market with images |
| Runs.ReadArchive | BingImagesDownloader/Program.cs:152-214 | the pass only adds to the total, counts no more downloads than it adds, keeps the shared counter within the configured attempts, and loses no file or request |
| Runs.ReadArchiveCounts | BingImagesDownloader/Program.cs:152-214 | `filesDownloaded` never passes `totalFilesToDownload`, and the counter stays between 0 and the attempt limit |
| Runs.LedgerRoundTrip | BingImagesDownloader/Program.cs:365-378 | reading ledger nodes by the names they were written with gives back the records |
| Runs.AppendToLedger | BingImagesDownloader/Program.cs:348-381 | the earlier ledger is a prefix of the new one, which is longer by the number of failures and ends with one node per failure, in order |
| Runs.AppendToLedgerKeeps | BingImagesDownloader/Program.cs:348-381 | appending keeps the earlier nodes first; the length grows by the number of failures; every node is still one the program wrote |
| Runs.RetryFailedDownloads | BingImagesDownloader/Program.cs:408-471 | the retry changes neither the total, the progress file nor the status log, loses no download or file, does nothing without a ledger entry, and leaves the ledger alone when it throws |
| Runs.RetryAsWrittenThrows | BingImagesDownloader/Program.cs:410-426 | as written, the retry pass throws on any non-empty ledger the program wrote, before any download and with nothing changed |
| Runs.RetryWithLedgerNamesReconciles | BingImagesDownloader/Program.cs:408-471 | read by the ledger's own names, the retry completes; the new ledger is an in-order selection of the entries with a URL; each entry either downloads or stays, and an entry that left the ledger has its file on disk; with no attempts configured, all of them stay |
| Runs.RunWith | BingImagesDownloader/Program.cs:39-88 | for any child names the retry reads: a run only adds to the total, the files and the status log, and the progress file is either unchanged or today |
| Runs.Run | BingImagesDownloader/Program.cs:39-88 | the same for `Main` as written, and a completed run never removes the ledger |
| Runs.RunShortCircuits | BingImagesDownloader/Program.cs:44-78 | an unreadable progress file throws before anything else; a negative offset ends the run with nothing fetched or written |
| Runs.RunPersistence | BingImagesDownloader/Program.cs:51-75 | after a complete pass: the ledger becomes old ++ failed, only when something failed; the log gains the pass's entries; the progress date becomes today exactly when an image was counted and one was downloaded; an enabled retry throws exactly when the ledger is non-empty |
| Runs.RunAbortKeepsFiles | BingImagesDownloader/Program.cs:41-87 | an exception in the archive pass leaves the ledger, the log and the progress date as they were |
| Runs.RunKeepsLedgerHistory | BingImagesDownloader/Program.cs:53-75 | across runs of the program as written, the ledger never loses an entry |
| Runs.ProgressMovesForward | BingImagesDownloader/Program.cs:65-69 | scheduled: a changed progress date is today, and later than the date it replaces |
| Runs.RunWithLedgerNamesReconciles | BingImagesDownloader/Program.cs:51-75 | a run whose retry reads the ledger's own names completes; its ledger is an in-order selection of the earlier entries and new failures with a URL; each one downloads or stays, and one that left has its file on disk |
| Downloader.Program.constructor | BingImagesDownloader/Program.cs:33-34 | a process starts with both static counters at zero and no request made |
| Downloader.Program.DownloadImage | BingImagesDownloader/Program.cs:280-321 | the result and the new files and requests are those of `Fetching.Download` |
| Downloader.Program.DownloadWithAttempts | BingImagesDownloader/Program.cs:188-199 | the while loop ends as `Fetching.TryDownload` says; `filesDownloaded` grows by one exactly on success; the flag is unchanged when the loop does not run |
| Downloader.Program.DownloadRecord | BingImagesDownloader/Program.cs:184-202 | one record with a URL does what `Runs.Step` says, provided a stale true flag comes with a counter below the limit |
| Downloader.Program.GetImagesXml | BingImagesDownloader/Program.cs:480-520 | the result is `Feeds.LoadFeed`; on demand, the offsets tried go down from `days` by one and all but the last fail; scheduled, one load |
| Downloader.Program.ReadArchiveData | BingImagesDownloader/Program.cs:152-214 | files, requests, counters, failed list and status log are those of `Runs.ReadArchive` |
| Downloader.Program.ReadMarketData | BingImagesDownloader/Program.cs:166-211 | one iteration of the market loop does what `Runs.ReadMarket` says |
| Downloader.Program.DownloadFeedImages | BingImagesDownloader/Program.cs:174-205 | a feed's image nodes are handled as `Runs.ReadFeedImages` says |
| Downloader.Program.AppendImageNodes | BingImagesDownloader/Program.cs:365-378 | the loop appends exactly one node per record, in order |
| Downloader.Program.SaveFailedDownloadsXml | BingImagesDownloader/Program.cs:348-381 | the ledger becomes the old ledger (empty if absent) followed by the new nodes |
| Downloader.Program.SaveStatusXml | BingImagesDownloader/Program.cs:136-144 | the progress file records the given day |
| Downloader.Program.SaveStatusLog | BingImagesDownloader/Program.cs:387-403 | the entries go after those already in the log |
| Downloader.Program.RetryForFailedDownloads | BingImagesDownloader/Program.cs:408-471 | the whole state afterwards is that of `Runs.RetryFailedDownloads`; the flag that is never reset between records is shown harmless |
| Downloader.Program.Run | BingImagesDownloader/Program.cs:39-88 | the whole state after `Main` is that of `Runs.Run`, the function the run lemmas are about |

## Left out

- Console output and `Environment.Exit` in the catch have no effect on the modelled state.
- Creating directories is not modelled. A failure there ends the run in `Main`'s catch, like any other exception.
- The text of the status log (`BuildStatusLog`, with time stamps and dividers) is not modelled. An entry is kept as its offset, its market and its message.
- Dates are whole day numbers. Parsing and formatting with `yyyy-MM-dd` and `DateTime.Now` are not modelled. A progress file that does not parse is the `Malformed` case, which throws.
- Downloader.Program.SaveStatusLog: the status log is one sequence of entries across runs. The source writes one file per date (`Status_<date>.txt`), and which day's file an entry lands in is not modelled.
- Fetching.Download: file paths are compared as exact strings. On Windows `File.Exists` ignores case, so two descriptions that differ only in case share one file in the source: the second counts as downloaded with no request, where the model requests it.
- Runs.RunWith: writing the ledger, the status log and the progress file never fails in the model. In the source an I/O exception in one of them skips the later writes and the retry pass, and ends in `Main`'s catch.
- `Path.GetInvalidFileNameChars()` is a parameter, because the list depends on the platform.
- The archive URL format and `maxImagesToDownload` are not modelled. The feed oracle is indexed by offset and market.
- An XML element is a map from child name to the text of the first child element with that name, as `XElement.Element(name)` finds it. Its attributes and nesting are not modelled.
- A ledger file that exists but is not well-formed XML is not modelled: the ledger is absent or a list of elements.
- `Fetching.Download`: a failed `DownloadFile` leaves no file behind. A partial file that a failed transfer might leave is not modelled.
- `infoDirectory` (where the progress file and the ledger live) and the unused `downloadImagesFromLastDownloadDate` are not modelled. The progress file and the ledger are fields, whatever their directory.

## Findings

| source | as written | input that shows it | evidently intended | confidence | as-written member | corrected member |
|---|---|---|---|---|---|---|
| BingImagesDownloader/Program.cs:425-426 | the retry pass reads each ledger entry's children by the feed's names `url` and `copyright`; the ledger writers use `URL` and `Description`, and XML names are case-sensitive, so `.Value` on the missing child throws | a ledger holding one entry written by `SaveFailedDownloadsXML`, with retry enabled | read `URL` and `Description`, so failed images are retried and an entry leaves the ledger only once its image is on disk | not executed | Runs.RetryAsWrittenThrows | Runs.RetryWithLedgerNamesReconciles |
