# Extractor: channel comment scraping, modelled in Dafny

This project models the core of the YouTube comment extractor's server: the
request handler `GET /extract_channel`, the channel orchestrator
`extract_channel_comments`, the scraped-videos ledger, and the two yt-dlp
adapters that list a channel's videos and fetch one video's comments.

- **Ledger** (`scraped_ledger.dfy`). The file `data/scraped_videos.json` and
  its temporary sibling are the two fields of the class `Ledger`. Loading
  reads the ids it holds. Saving adds an id and replaces the file
  atomically; a step of the save that raises leaves the file unchanged.
- **Video listing** (`video_list.dfy`). The channel URL is pointed at its
  videos tab, and the first `n` library entries become
  `{title, url, upload_date}` records. Entries without an id are dropped,
  and any failure gives the empty list.
- **Comment fetching** (`comment_extractor.dfy`). Each comment is normalised:
  the text is cut to 2000 characters and its double quotes become single
  quotes. The function returns `(count, comments)`, and any failure gives
  `(0, [])`.
- **Orchestrator** (`channel_scraper.dfy`, `channel_scraper_props.dfy`).
  The run works as follows:
  - It lists twice the requested number of videos.
  - It skips videos without a URL and those whose id was in the ledger when
    the run started.
  - It tries each remaining video up to three times, sleeping `2 ** attempt`
    seconds after each failed attempt.
  - Each processed video writes its CSV file, sets the analytics entry for
    its URL and asks the ledger to save its id (a failed save is silently
    ignored).
  - It stops once `num_videos` videos have been processed.

  The loop is a small-step machine (`Next`, `Run`), and the method
  `ExtractChannelComments` is proved to implement it. The lemmas then
  describe the run candidate by candidate (`StatusOf`, `Before`,
  `StopFrom`) and prove what it returns, writes, saves, fetches and sleeps.
- **Route** (`extract_route.dfy`). The handler derives the channel id. It
  then answers either a JSON summary or a combined CSV download of every
  video's rows, each row tagged with the channel id, video URL, title and
  upload date. Every exception, including the 404 it raises itself, becomes
  a 500 answer carrying the exception's text.

The outside world is a set of parameters:

| parameter | stands for |
|---|---|
| `listInfo` | what yt-dlp's `extract_info` returns for the channel |
| `fetch(i, a)` | what it returns for attempt `a` at candidate `i` |
| `write(i, a)` | whether that attempt's CSV write completes, raises in `open` (leaving the file untouched), or raises after `n` lines |
| `saveFault(i)` | which step of the ledger save raises, if any |
| `disk` | the files that exist before the request |
| `readCsv` | pandas' `read_csv` |
| `timestamp` | `datetime.now().strftime(...)` |

- `time.sleep` adds to a `delay` counter.
- Files written are a map from path to the lines they hold.

`py_dict.dfy` models Python's insertion-ordered `dict`. `text.dfy` models
the `str` operations the code uses: `split(c)[0]`, `split(c)[-1]`,
`split("v=")[-1]`, `rstrip`, `endswith`, slicing, `replace` and `int`
formatting.

The model follows the code as written, including these behaviours:
- A video whose fetch yields no comments is saved to the ledger but not
  counted as processed. The run does not raise when nothing was extracted;
  it returns `({}, "")`.
- The per-video CSV header has five columns
  (`comment_id,text,author,likes,timestamp`). Only the text field is quoted,
  and newlines in the text are kept.
- The backoff sleep also follows the third failed attempt, so a video that
  fails three times costs 2 + 4 + 8 = 14 seconds.
- The set of already-scraped ids is read once, at the start of the run, and
  is not updated as ids are saved. Two listed entries with the same id are
  therefore both processed; the analytics dict then has fewer keys than the
  processed count.
- The combined download reads back only the CSVs named in the analytics, in
  key order. If the run processed nothing, the download fails with a 500
  carrying `404: CSV file not found`: the path is empty and so does not
  exist.

## Model

| member | source | states |
|---|---|---|
| ScrapedLedger.LoadedIds | server/app/utils/yt/dlp/channel_scraper.py:12-23 | a missing, unreadable or non-list ledger loads as the empty set; a list loads as exactly its elements |
| ScrapedLedger.Ledger.GetScrapedVideos | server/app/utils/yt/dlp/channel_scraper.py:12-23 | returns the ids of the ledger file, and the empty set when it is missing or malformed |
| ScrapedLedger.SetToList | server/app/utils/yt/dlp/channel_scraper.py:33 | `list(scraped)` lists every element of the set once and nothing else |
| ScrapedLedger.Ledger.SaveScrapedVideo | server/app/utils/yt/dlp/channel_scraper.py:25-36 | a save that completes leaves a duplicate-free list holding the old ids plus the new one and no temporary file; a save whose mkdir, temporary write or replace raises leaves the ledger file as it was, and says what the temporary file then holds |
| PyDict.Put | server/app/utils/yt/dlp/channel_scraper.py:102-107 | `d[k] = v` maps `k` to `v`; a new key goes to the end of the key order, an existing key keeps its place |
| PyDict.PutKeepsValid | server/app/utils/yt/dlp/channel_scraper.py:102-107 | assignment keeps every key listed once and the listed keys equal to the mapped keys |
| PyDict.Dict.Values | server/app/routes/extractor.py:49 | `.values()` yields one value per key, in key order |
| Text.RStrip | server/app/utils/yt/dlp/video_list.py:19 | `rstrip(c)` gives the longest prefix not ending in `c`, and what it removes is all `c` |
| Text.AfterLastChar | server/app/routes/extractor.py:22 | `split(c)[-1]` is a suffix free of `c`, preceded by `c` unless it is the whole text |
| Text.AfterLastCharConcat | server/app/routes/extractor.py:22 | `split(c)[-1]` of `p + c + r`, for `r` free of `c`, is `r` whatever `p` holds |
| Text.BeforeFirstCharSpec | server/app/utils/yt/dlp/channel_scraper.py:71 | `split(c)[0]` is the longest prefix free of `c`, followed by `c` unless it is the whole text |
| Text.BeforeFirstCharAt | server/app/utils/yt/dlp/channel_scraper.py:71 | `split(c)[0]` ends exactly at the first `c` |
| Text.BeforeFirstCharFree | server/app/utils/yt/dlp/channel_scraper.py:71 | `split(c)[0]` of a text free of `c` is the text |
| Text.AfterLastPairSuffix | server/app/utils/yt/dlp/channel_scraper.py:71 | `split("v=")[-1]` is a suffix of the URL |
| Text.AfterLastPairSpec | server/app/utils/yt/dlp/channel_scraper.py:71 | `split("v=")[-1]` is a suffix free of `v=`, preceded by `v=` unless it is the whole URL |
| Text.AfterLastPairConcat | server/app/utils/yt/dlp/channel_scraper.py:71 | `split("v=")[-1]` of `p + "v=" + r`, for `r` free of `v=`, is `r` |
| Text.PrefixSlice | server/app/utils/yt/dlp/video_list.py:32 | Python's `s[:n]`: the first `n` elements, all of them when `n` is too large, all but the last `-n` when `n` is negative |
| Text.ReplaceChar | server/app/utils/yt/dlp/extractor.py:38 | `replace(x, y)` on one character changes exactly the occurrences of `x` and keeps the length |
| Text.ReplaceCommutesWithPrefix | server/app/utils/yt/dlp/extractor.py:38 | replacing, then cutting to `n` characters, equals cutting, then replacing |
| Text.NatToDecimal | server/app/utils/yt/dlp/channel_scraper.py:99 | the decimal text of a number is a non-empty digit string without a leading zero |
| Text.NatToDecimalRoundTrip | server/app/utils/yt/dlp/channel_scraper.py:99 | reading the decimal text back gives the number |
| Text.IntToDecimal | server/app/utils/yt/dlp/channel_scraper.py:99 | the text starts with `-` exactly when the number is negative, and the digits after it read back as the magnitude |
| VideoList.NormalizeChannelUrl | server/app/utils/yt/dlp/video_list.py:18-19 | the URL asked for ends with `/videos`; a URL already ending so is kept, any other loses its trailing slashes and gains `/videos` |
| VideoList.NormalizeIdempotent | server/app/utils/yt/dlp/video_list.py:18-19 | normalising twice is normalising once |
| VideoList.ToVideoRef | server/app/utils/yt/dlp/video_list.py:36-40 | the record has the watch URL of the entry's id, the title or `Untitled`, the upload date or `""` |
| VideoList.MapEntries | server/app/utils/yt/dlp/video_list.py:32-40 | the shaping loop raises exactly when an entry is `None`, and otherwise lists at most one video per entry |
| VideoList.MapEntriesAppend | server/app/utils/yt/dlp/video_list.py:32-40 | entries are shaped one by one, in order |
| VideoList.MapEntriesSingle | server/app/utils/yt/dlp/video_list.py:33-40 | one entry is dropped exactly when its id is missing or empty |
| VideoList.MapEntriesFromEntry | server/app/utils/yt/dlp/video_list.py:32-40 | every listed video is the record of one entry that has an id |
| VideoList.MapEntriesEveryEntryListed | server/app/utils/yt/dlp/video_list.py:32-40 | every entry that has an id is listed |
| VideoList.MapEntriesRaises | server/app/utils/yt/dlp/video_list.py:32-47 | a `None` entry anywhere makes the shaping raise |
| VideoList.VideosFromInfo | server/app/utils/yt/dlp/video_list.py:27-47 | definition: a raising extraction, no info or no `entries` gives the empty list; otherwise the first `num_videos` entries (a Python slice) are shaped, and a raise in the shaping gives the empty list; its properties are VideoList.VideosFromInfoBounds and VideoList.VideosFromInfoUrls |
| VideoList.VideosFromInfoBounds | server/app/utils/yt/dlp/video_list.py:27-47 | no info or no `entries` lists nothing; at most `num_videos` videos and at most one per entry are listed |
| VideoList.VideosFromInfoUrls | server/app/utils/yt/dlp/video_list.py:38 | every listed URL is a watch URL of a non-empty id |
| VideoList.GetVideosFromChannel | server/app/utils/yt/dlp/video_list.py:7-47 | the listing loop returns the videos of the first `num_videos` entries of what the library answers for the normalised URL, or the empty list on any failure |
| CommentExtractor.NormalizeText | server/app/utils/yt/dlp/extractor.py:38 | the text is cut to 2000 characters, has no double quote, and each character is the source's with `"` turned into `'` |
| CommentExtractor.NormalizeTextEitherOrder | server/app/utils/yt/dlp/extractor.py:38 | cutting and replacing commute |
| CommentExtractor.NormalizeComment | server/app/utils/yt/dlp/extractor.py:36-42 | every field is the comment's or the `.get` default (`""`, `0`, no timestamp), and the text is normalised |
| CommentExtractor.NormalizeAll | server/app/utils/yt/dlp/extractor.py:31-42 | at most one record per entry, each text at most 2000 characters and free of double quotes |
| CommentExtractor.NormalizeAllAppend | server/app/utils/yt/dlp/extractor.py:32-42 | comments are normalised one by one, in order |
| CommentExtractor.NormalizeAllSingle | server/app/utils/yt/dlp/extractor.py:33-42 | a falsy entry is skipped, any other gives exactly its record |
| CommentExtractor.NormalizeAllNoFalsy | server/app/utils/yt/dlp/extractor.py:32-42 | without falsy entries the records correspond to the entries position by position |
| CommentExtractor.ExtractCommentsSpec | server/app/utils/yt/dlp/extractor.py:22-49 | the count is the number of comments; a raise, no info or no `comments` key gives `(0, [])` |
| CommentExtractor.ExtractComments | server/app/utils/yt/dlp/extractor.py:7-49 | the extraction loop returns the pair above, whose texts are all cut and quote-free |
| ChannelScraper.AsCandidates | server/app/utils/yt/dlp/channel_scraper.py:63 | one candidate per listed video, in order |
| ChannelScraper.VideoId | server/app/utils/yt/dlp/channel_scraper.py:71 | definition: the text after the last `v=`, cut at its first `&`; its properties are ChannelScraperProps.VideoIdShape and ChannelScraperProps.VideoIdOfWatchUrl |
| ChannelScraper.PathJoin | server/app/utils/yt/dlp/channel_scraper.py:92 | definition: `os.path.join` of two parts, where a name starting with `/` replaces the directory; ChannelScraperProps.CsvPathSpec states what it gives for a CSV path |
| ChannelScraper.CsvPath | server/app/utils/yt/dlp/channel_scraper.py:92 | definition: the id's `.csv` file joined to `data/extracted`; stated by ChannelScraperProps.CsvPathSpec and ChannelScraperProps.CsvPathInjective |
| ChannelScraper.LineText | server/app/utils/yt/dlp/channel_scraper.py:99 | definition: the header, or `id,"text",author,likes,timestamp` for one comment, with a missing timestamp as empty text; ChannelScraperProps.DataLineReadsBack reads it back |
| ChannelScraper.LineTail | server/app/utils/yt/dlp/channel_scraper.py:99 | definition: the author, likes and timestamp fields of a comment's line |
| ChannelScraper.TimestampText | server/app/utils/yt/dlp/channel_scraper.py:99 | definition: the timestamp field of a line, empty text for the `''` default and the number's decimal text otherwise, as Text.IntToDecimal states |
| ChannelScraper.Written | server/app/utils/yt/dlp/channel_scraper.py:96-99 | definition: the first `n` lines of a write that raises, or all of them; stated by ChannelScraper.WrittenIsPrefix |
| ChannelScraper.Pow2 | server/app/utils/yt/dlp/channel_scraper.py:118 | definition: `2 ** attempt`; the total after several failures is stated by ChannelScraperProps.BackoffClosedForm |
| ChannelScraper.CsvLines | server/app/utils/yt/dlp/channel_scraper.py:96-99 | a CSV holds the header, then one line per comment in order |
| ChannelScraper.WrittenIsPrefix | server/app/utils/yt/dlp/channel_scraper.py:96-99 | a write that raises part-way leaves a prefix of the lines |
| ChannelScraper.WriteCsv | server/app/utils/yt/dlp/channel_scraper.py:96-99 | the writing loop writes exactly those lines |
| ChannelScraper.Examine | server/app/utils/yt/dlp/channel_scraper.py:67-80 | examining a candidate either ends it (no URL, or id already scraped) or starts its first attempt |
| ChannelScraper.EndNoComments | server/app/utils/yt/dlp/channel_scraper.py:87-90 | definition: an attempt without comments records its fetch, asks the ledger to save the id and ends the video, not counted as processed; stated by ChannelScraperProps.AttemptStatus, AttemptRecords and AttemptFiles |
| ChannelScraper.WriteFailed | server/app/utils/yt/dlp/channel_scraper.py:92-118 | definition: a failed write records its fetch, leaves its partial file when it got past `open` and the files as they were when `open` raised, sleeps `2 ** attempt`, and ends the video after the third attempt or moves to the next; its contract gives only the shape of the next step, and ChannelScraperProps.AttemptFiles, GivenUpFiles, EmptyAfterFailuresFiles, AttemptStatus and AttemptDelay state its effects |
| ChannelScraper.Recorded | server/app/utils/yt/dlp/channel_scraper.py:92-112 | definition: a completed write sets the file to every line, sets the URL's analytics entry, appends the path, counts the video and asks the ledger to save the id; stated by ChannelScraperProps.AttemptRecords, AttemptStatus and AttemptFiles |
| ChannelScraper.Next | server/app/utils/yt/dlp/channel_scraper.py:63-118 | each step either ends the current candidate or moves to a later attempt of it, so the loop terminates |
| ChannelScraper.RunNext | server/app/utils/yt/dlp/channel_scraper.py:63-65 | while the stop test fails, the loop ends where its next step's loop ends |
| ChannelScraper.SaveId | server/app/utils/yt/dlp/channel_scraper.py:89-109 | the ledger gains the id exactly when the save does not fail |
| ChannelScraper.TryOnce | server/app/utils/yt/dlp/channel_scraper.py:83-118 | one pass of the attempts loop leaves the locals and the ledger as one step of the machine says |
| ChannelScraper.ScrapeVideo | server/app/utils/yt/dlp/channel_scraper.py:82-118 | the attempts loop for one video continues the machine's run |
| ChannelScraper.ExamineCandidate | server/app/utils/yt/dlp/channel_scraper.py:67-118 | the body of the candidate loop continues the machine's run |
| ChannelScraper.Done | server/app/utils/yt/dlp/channel_scraper.py:63-65 | definition: the loop is over at the end of the list, or before a candidate once `processed_count >= num_videos`; stated through ChannelScraperProps.StopFromSpec and StopSpec |
| ChannelScraper.Run | server/app/utils/yt/dlp/channel_scraper.py:63-118 | definition: the state the candidate loop ends in, repeating `Next` until `Done`; stated by ChannelScraperProps.RunByCandidate, RunIsBefore and ChannelRunSpec |
| ChannelScraper.ReportOf | server/app/utils/yt/dlp/channel_scraper.py:120-131 | definition: `({}, "")` for empty analytics, otherwise the analytics and the last CSV path; stated by ChannelScraperProps.ReportSpec |
| ChannelScraper.Listing | server/app/utils/yt/dlp/channel_scraper.py:54 | definition: the listing of twice the requested count for the normalised URL; ChannelScraperProps.ListedCandidatesHaveUrl and ChannelScraperProps.ListedVideoId state what it holds |
| ChannelScraper.ChannelRun | server/app/utils/yt/dlp/channel_scraper.py:52-131 | definition: an empty listing raises, otherwise the loop runs from the empty state and the pair is taken from its end state; stated by ChannelScraperProps.ChannelRunSpec |
| ChannelScraper.ExtractChannelComments | server/app/utils/yt/dlp/channel_scraper.py:38-135 | the orchestrator returns, sleeps, writes and saves exactly what the machine's run from the ledger snapshot does |
| ChannelScraperProps.VideoIdOfWatchUrl | server/app/utils/yt/dlp/channel_scraper.py:71 | the id extracted from a watch URL built from an id free of `&` and `v=` is that id |
| ChannelScraperProps.VideoIdShape | server/app/utils/yt/dlp/channel_scraper.py:71 | any extracted id is free of `&` and `v=`, no longer than the URL, and recovered from its own watch URL |
| ChannelScraperProps.ListedVideoId | server/app/utils/yt/dlp/video_list.py:38 | every listed URL is a watch URL of a non-empty id |
| ChannelScraperProps.ListedCandidatesHaveUrl | server/app/utils/yt/dlp/channel_scraper.py:67-69 | every candidate the listing gives has a URL, so the skip for a missing URL never happens |
| ChannelScraperProps.CsvPathSpec | server/app/utils/yt/dlp/channel_scraper.py:92 | a relative id's CSV is `data/extracted/<id>.csv`; an id starting with `/` gives the absolute path `<id>.csv` |
| ChannelScraperProps.CsvPathInjective | server/app/utils/yt/dlp/channel_scraper.py:92 | distinct relative ids get distinct CSV paths |
| ChannelScraperProps.DataLineReadsBack | server/app/utils/yt/dlp/channel_scraper.py:99 | a comment line reads back: the id runs to the first comma, and the quoted text to the next quote |
| ChannelScraperProps.FieldsReadBack | server/app/utils/yt/dlp/channel_scraper.py:99 | in a line `id,"text",rest`, the id runs to the first comma and the quoted text to the next quote, whatever `rest` holds |
| ChannelScraperProps.OutcomeRange | server/app/utils/yt/dlp/channel_scraper.py:82-118 | the attempts end in no-comments or processed at an attempt from 1 to 3, or in failure |
| ChannelScraperProps.OutcomeCases | server/app/utils/yt/dlp/channel_scraper.py:82-118 | iff: processed at `b` when every earlier attempt found comments but failed to write and `b` wrote; no comments at `b` when `b` found none after such failures; failed when all three found comments and failed |
| ChannelScraperProps.BackoffClosedForm | server/app/utils/yt/dlp/channel_scraper.py:118 | the sleeps after `n` failures total `2 ** (n + 1) - 2` |
| ChannelScraperProps.ThreeFailuresSleepFourteen | server/app/utils/yt/dlp/channel_scraper.py:114-118 | a video failing three times sleeps 14 seconds, the third sleep included |
| ChannelScraperProps.AttemptRangeSpec | server/app/utils/yt/dlp/channel_scraper.py:82 | the attempts asked for are `lo` to `hi`, in order |
| ChannelScraperProps.RunByCandidate | server/app/utils/yt/dlp/channel_scraper.py:63-118 | the loop finishes one candidate and then carries on from the next |
| ChannelScraperProps.AttemptStatus | server/app/utils/yt/dlp/channel_scraper.py:82-112 | the attempts end with the status above, counted as processed exactly when processed |
| ChannelScraperProps.AttemptDelay | server/app/utils/yt/dlp/channel_scraper.py:114-118 | the attempts sleep once per failed write, `2 ** attempt` each |
| ChannelScraperProps.AttemptFetched | server/app/utils/yt/dlp/channel_scraper.py:85 | the library is asked once per attempt, up to the attempt that ends the video |
| ChannelScraperProps.AttemptRecords | server/app/utils/yt/dlp/channel_scraper.py:87-112 | the analytics entry and CSV path are added exactly when processed; the ledger gains the id exactly when it is saved without fault |
| ChannelScraperProps.FinishEffect | server/app/utils/yt/dlp/channel_scraper.py:63-118 | what examining one candidate changes, in terms of its status alone |
| ChannelScraperProps.Stops | server/app/utils/yt/dlp/channel_scraper.py:63-65 | definition: the loop's stop test, at the end of the list or once `processed_count >= num_videos`; used by ChannelScraperProps.StopFromSpec |
| ChannelScraperProps.StopFrom | server/app/utils/yt/dlp/channel_scraper.py:63-65 | the stop index lies between the start and the end of the list |
| ChannelScraperProps.RunFromBefore | server/app/utils/yt/dlp/channel_scraper.py:63-118 | running from the state after `i` candidates gives the state after the stop index |
| ChannelScraperProps.RunIsBefore | server/app/utils/yt/dlp/channel_scraper.py:63-118 | the loop ends in the state after examining every candidate before the stop index |
| ChannelScraperProps.StopFromSpec | server/app/utils/yt/dlp/channel_scraper.py:63-65 | the loop stops at the first candidate where `processed_count >= num_videos`, or at the end of the list |
| ChannelScraperProps.BeforeStatuses | server/app/utils/yt/dlp/channel_scraper.py:63-118 | after `i` candidates, one status per candidate, each the one its inputs determine |
| ChannelScraperProps.BeforeTrace | server/app/utils/yt/dlp/channel_scraper.py:60-118 | `processed_count`, `video_count`, total sleep and fetches are the accumulated per-candidate amounts |
| ChannelScraperProps.BeforeRecords | server/app/utils/yt/dlp/channel_scraper.py:58-112 | `analytics`, `csv_paths` and the ledger's gains are the accumulated per-candidate amounts |
| ChannelScraperProps.StatusOfAttempted | server/app/utils/yt/dlp/channel_scraper.py:67-82 | iff: skipped for no URL exactly when the URL is missing; skipped as scraped exactly when the id is in the snapshot; attempted otherwise, at most three times |
| ChannelScraperProps.PathsMatchProcessed | server/app/utils/yt/dlp/channel_scraper.py:108-110 | CSV paths and processed count grow in step, and neither count exceeds the candidates examined |
| ChannelScraperProps.StatusDelayBound | server/app/utils/yt/dlp/channel_scraper.py:118 | one candidate sleeps at most 14 seconds |
| ChannelScraperProps.DelayBound | server/app/utils/yt/dlp/channel_scraper.py:118 | the run sleeps at most 14 seconds per candidate examined |
| ChannelScraperProps.FetchesSpec | server/app/utils/yt/dlp/channel_scraper.py:82-85 | at most three fetches per candidate, each an attempt from 1 to 3 of an attempted candidate, in candidate order |
| ChannelScraperProps.SavedSpec | server/app/utils/yt/dlp/channel_scraper.py:89-109 | iff: the ledger gains an id exactly when some candidate with that id ended with comments found or none found, and its save did not fail |
| ChannelScraperProps.SavedNotInSnapshot | server/app/utils/yt/dlp/channel_scraper.py:74-76 | no id that was in the ledger at the start is saved again |
| ChannelScraperProps.AnalyticsShape | server/app/utils/yt/dlp/channel_scraper.py:102-110 | analytics stays well formed, with no more keys than processed videos, and is empty exactly when none was processed |
| ChannelScraperProps.AnalyticsHasProcessed | server/app/utils/yt/dlp/channel_scraper.py:102 | every processed video's URL is an analytics key |
| ChannelScraperProps.AnalyticsEntryOrigin | server/app/utils/yt/dlp/channel_scraper.py:102-107 | every analytics key is a processed video's URL, with the title, count, path and upload date of a processed attempt |
| ChannelScraperProps.LastWrite | server/app/utils/yt/dlp/channel_scraper.py:82-99 | the last attempt from `lo` to `hi` whose write got past `open`, with no later one in the range that did; none when every `open` in the range raised |
| ChannelScraperProps.LeftByFailures | server/app/utils/yt/dlp/channel_scraper.py:87-99 | definition: after failed attempts `lo` to `hi`, the path holds the partial lines of `LastWrite`'s attempt, or what it held before when there is none; used by ChannelScraperProps.GivenUpFiles, EmptyAfterFailuresFiles and FinishFiles |
| ChannelScraperProps.AttemptFiles | server/app/utils/yt/dlp/channel_scraper.py:92-99 | the attempts only touch the video's CSV and never remove a file; the CSV is complete when processed, and all files are untouched when the first attempt finds no comments |
| ChannelScraperProps.GivenUpFiles | server/app/utils/yt/dlp/channel_scraper.py:92-118 | after three failures the CSV holds what the last write past `open` left, or is untouched when every `open` raised |
| ChannelScraperProps.EmptyAfterFailuresFiles | server/app/utils/yt/dlp/channel_scraper.py:87-99 | a video found empty at attempt `b` after failed writes keeps at its CSV what the last write before `b` that got past `open` left, or is untouched there |
| ChannelScraperProps.FinishFiles | server/app/utils/yt/dlp/channel_scraper.py:92-99 | examining a candidate touches at most its CSV and never removes a file; the CSV is complete when processed; for a given-up video, or one found empty after failed writes, it holds what the last write past `open` left, or is untouched |
| ChannelScraperProps.FilesFrame | server/app/utils/yt/dlp/channel_scraper.py:96 | a path no candidate in a range attempts is untouched by the range |
| ChannelScraperProps.FilesGrow | server/app/utils/yt/dlp/channel_scraper.py:96 | files are only added or rewritten, never removed |
| ChannelScraperProps.ProcessedPathWritten | server/app/utils/yt/dlp/channel_scraper.py:92-99 | a processed video's CSV exists once the video is done |
| ChannelScraperProps.ReportedPathWritten | server/app/utils/yt/dlp/channel_scraper.py:131 | the CSV path returned with non-empty analytics is a file the run wrote |
| ChannelScraperProps.ProcessedFileComplete | server/app/utils/yt/dlp/channel_scraper.py:92-99 | a processed video's CSV holds its header and every comment line until another candidate with the same path rewrites it |
| ChannelScraperProps.StopSpec | server/app/utils/yt/dlp/channel_scraper.py:63-65 | never more than `num_videos` processed; exactly that many when the loop stops early; fewer before the stop |
| ChannelScraperProps.LastProcessed | server/app/utils/yt/dlp/channel_scraper.py:131 | the last processed candidate lies among those examined |
| ChannelScraperProps.LastProcessedSpec | server/app/utils/yt/dlp/channel_scraper.py:108-131 | there is a last processed candidate exactly when one was processed, and the last CSV path is its path |
| ChannelScraperProps.ReportSpec | server/app/utils/yt/dlp/channel_scraper.py:120-131 | the pair is `({}, "")` when nothing was processed, otherwise the analytics and the last processed video's CSV path |
| ChannelScraperProps.ChannelRunSpec | server/app/utils/yt/dlp/channel_scraper.py:52-131 | iff: the run raises exactly when the listing is empty, before fetching, writing or saving; otherwise it returns the pair from the state at the stop index |
| ChannelScraperProps.EntriesOfRun | server/app/utils/yt/dlp/channel_scraper.py:71-110 | every analytics entry is keyed by a URL whose id was not already scraped, points at that id's CSV and counts at least one comment |
| ExtractRoute.ChannelId | server/app/routes/extractor.py:22 | definition: the text after the last `@`, cut at its first `/`; stated by ExtractRoute.ChannelIdShape, ChannelIdOfHandle, ChannelIdOfBareHandle and ChannelIdWithoutHandle |
| ExtractRoute.SumComments | server/app/routes/extractor.py:49 | definition: the sum of `total_comments` over the values; bounded by ExtractRoute.SumAtLeastCount |
| ExtractRoute.Frames | server/app/routes/extractor.py:24-30 | definition: the tagged frames of the analytics in key order, or the first read error; stated by ExtractRoute.FramesSpec and FramesLength |
| ExtractRoute.Concat | server/app/routes/extractor.py:32 | definition: `pd.concat` of a non-empty list, the rows of the frames one after the other (the empty list's raise is in ExtractRoute.DownloadResponse); stated by ExtractRoute.ConcatAppend, ConcatPlacesFrame and ConcatRowOrigin |
| ExtractRoute.PathExists | server/app/routes/extractor.py:17 | definition: `os.path.exists`, false for the empty path, true for a file on disk before the request or written by the run; used by ExtractRoute.DownloadAnswer and EmptyReportAnswers |
| ExtractRoute.CombinedPath | server/app/routes/extractor.py:34 | definition: `data/extracted/combined_<channel id>_<timestamp>.csv`; the path and file name of the download ExtractRoute.DownloadAnswer states |
| ExtractRoute.DownloadName | server/app/routes/extractor.py:40 | definition: `youtube_comments_<channel id>_all_videos.csv`; the path and file name of the download ExtractRoute.DownloadAnswer states |
| ExtractRoute.DownloadResponse | server/app/routes/extractor.py:16-41 | definition: the download branch, from the existence test through the combined file's response; stated by ExtractRoute.DownloadAnswer and EmptyReportAnswers |
| ExtractRoute.RouteResponse | server/app/routes/extractor.py:10-58 | definition: the whole handler's answer to the orchestrator's outcome; stated by ExtractRoute.RunAnswers, SummaryAnswer and ErrorIsServerError |
| ExtractRoute.Tag | server/app/routes/extractor.py:25-29 | every row of a video's frame gains the channel id, the video URL, its title and its upload date |
| ExtractRoute.CombineFrames | server/app/routes/extractor.py:21-30 | the combining loop reads the frames of the analytics in key order, or stops with the first read's error |
| ExtractRoute.FramesErrStays | server/app/routes/extractor.py:24-30 | once a read raises, the loop's outcome is that error |
| ExtractRoute.ExtractChannel | server/app/routes/extractor.py:10-58 | the handler's answer is the route's answer to the orchestrator's run from the ledger snapshot, and the ledger gains what the run saves |
| ExtractRoute.RunReport | server/app/utils/yt/dlp/channel_scraper.py:120-131 | the pair of every run that does not raise is well formed, names a written CSV when non-empty, the empty path when empty, and counts at least one comment per entry |
| ExtractRoute.BeforeReport | server/app/utils/yt/dlp/channel_scraper.py:120-131 | the same facts hold for the state after any number of candidates |
| ExtractRoute.ChannelIdShape | server/app/routes/extractor.py:22 | the channel id is free of `@` and `/` and no longer than the URL |
| ExtractRoute.ChannelIdOfHandle | server/app/routes/extractor.py:22 | a URL `…/@name/rest` gives `name`, whatever precedes the `@` |
| ExtractRoute.ChannelIdOfBareHandle | server/app/routes/extractor.py:22 | a URL ending in `@name` gives `name` |
| ExtractRoute.ChannelIdWithoutHandle | server/app/routes/extractor.py:22 | a URL without `@` gives everything before its first `/` |
| ExtractRoute.FramesSpec | server/app/routes/extractor.py:24-30 | iff: the frames are read exactly when every CSV reads, one tagged frame per key in key order; otherwise the error is the first unreadable CSV's |
| ExtractRoute.FramesLength | server/app/routes/extractor.py:24-30 | one frame per analytics key |
| ExtractRoute.ConcatAppend | server/app/routes/extractor.py:32 | concatenating two lists of frames is concatenating each, one after the other |
| ExtractRoute.ConcatPlacesFrame | server/app/routes/extractor.py:32 | the combined rows hold frame `j` right after the rows of the frames before it |
| ExtractRoute.ConcatRowOrigin | server/app/routes/extractor.py:32 | every combined row is a row of one frame |
| ExtractRoute.CombinedRowsTagged | server/app/routes/extractor.py:24-32 | every combined row carries the channel id and the URL, title and upload date of an analytics video |
| ExtractRoute.ErrorIsServerError | server/app/routes/extractor.py:53-58 | an orchestrator exception is a 500 answer with its message |
| ExtractRoute.SumAtLeastCount | server/app/routes/extractor.py:49 | comments of entries counting at least one each sum to at least their number, and to 0 for none |
| ExtractRoute.EmptyReportAnswers | server/app/routes/extractor.py:16-51 | for `({}, "")` the summary is 0 videos and 0 comments, and a download is a 500 carrying `404: CSV file not found` |
| ExtractRoute.SummaryAnswer | server/app/routes/extractor.py:43-51 | the summary has the channel id, `len(stats)` and at least that many comments |
| ExtractRoute.DownloadAnswer | server/app/routes/extractor.py:16-41 | an empty pair fails on the missing CSV; otherwise the CSV exists and the answer is the combined tagged frames or the first read error; the empty concatenation is never reached |
| ExtractRoute.RunAnswers | server/app/routes/extractor.py:10-58 | for a whole run: an empty listing is a 500 with its message; otherwise the summary and download answers above |

## Left out

- I/O is not modelled. yt-dlp, the file system, `time.sleep`, `datetime.now()`, pandas' CSV reader and FastAPI are parameters or plain values. No bytes are encoded and no JSON is parsed.
- Printing and logging (`print`, `logger`) are left out because they change no result.
- The `mkdir` calls of the orchestrator (`EXTRACTED_DIR`) and of the route (`data/extracted`) are left out; both are assumed to succeed. The ledger's own `mkdir` failure is modelled as a save fault.
- The combined file's own write (`combined_df.to_csv`) is left out. The model answers the rows and the path; it does not add that file to the written files, and a failure of that write is not modelled.
- Dict keys whose value is JSON `null` are not modelled: with them `.get` returns `None` rather than the default, and some f-strings would print `None`. An absent key and a present value are both modelled.
- Exceptions other than the CSV write's are not modelled inside the attempts loop: the analytics update and `save_scraped_video` cannot raise there, and `extract_comments` catches everything itself.
- The text of `str(HTTPException)` is taken as `404: CSV file not found`, Starlette's `status: detail` form. That framework's code is not part of this model.
- The order of `list(set)` in the ledger file follows Python's string hashing. The model leaves it open: any duplicate-free listing of the set.
- ChannelScraper.WriteFailed, ChannelScraperProps.GivenUpFiles, ChannelScraperProps.EmptyAfterFailuresFiles, ChannelScraperProps.FinishFiles: a write that raises after `open` is modelled as leaving a prefix of whole lines; a raise in the middle of one line's characters is not distinguished.
- ExtractRoute.RunAnswers: states the download of a non-empty run only up to the combined rows (`Download?` and its rows); the path, media type and file name are stated by ExtractRoute.DownloadAnswer.
- The concurrency of FastAPI's event loop is not modelled. The handler runs blocking code inside `async def`, and each request is modelled as one sequential run.
