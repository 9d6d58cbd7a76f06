/** The channel orchestrator (`extract_channel_comments`): list about twice
    as many videos as requested, skip those without a URL and those whose id
    was in the ledger when the run started, try each remaining one up to
    three times with exponential backoff, write one CSV per video with
    comments, and collect per-video analytics until `numVideos` videos have
    been processed.

    The run is specified as a small-step machine: `Next` performs one
    examination of a candidate or one attempt at it, and `Run` repeats it
    until the candidate list is exhausted or the stop test holds; the method
    `ExtractChannelComments` is the pair of loops that implements it. The library calls and file writes are
    parameters: `listInfo` answers the listing, `fetch(i, a)` is what attempt
    `a` at candidate `i` gets from the library, `write(i, a)` says whether
    that attempt's CSV write completes, and `saveFault(i)` says whether
    saving candidate `i`'s id to the ledger fails. `time.sleep` adds to a
    delay counter. The specification functions see the library through
    `Extracted(fetch)`, the answers `extract_comments` makes of it. */
module ChannelScraper {
  import opened Wrappers
  import opened Text
  import PyDict
  import opened VideoList
  import opened CommentExtractor
  import opened ScrapedLedger

  const ExtractedDir := "data/extracted"
  const CsvHeader := "comment_id,text,author,likes,timestamp"
  const DefaultUploadDate := "N/A"
  const NoVideosMessage := "\U{274C} No videos found in channel"

  /** A listed video as the orchestrator reads it: a dict whose keys may be absent. */
  datatype Candidate = Candidate(title: Option<string>, url: Option<string>, uploadDate: Option<string>)

  function AsCandidate(v: VideoRef): Candidate {
    Candidate(Some(v.title), Some(v.url), Some(v.uploadDate))
  }

  function AsCandidates(vs: seq<VideoRef>): (cs: seq<Candidate>)
    ensures |cs| == |vs|
    ensures forall k :: 0 <= k < |vs| ==> cs[k] == AsCandidate(vs[k])
  {
    seq(|vs|, k requires 0 <= k < |vs| => AsCandidate(vs[k]))
  }

  /** `video.get("url")` is truthy. */
  predicate HasUrl(c: Candidate) {
    c.url.Some? && c.url.value != ""
  }

  /** The id of a watch URL: the text after the last `v=`, up to the first `&`. */
  function VideoId(url: string): string {
    BeforeFirstChar(AfterLastPair(url, 'v', '='), '&')
  }

  /** Python `os.path.join(dir, name)` for two parts: an absolute `name` wins. */
  function PathJoin(dir: string, name: string): string {
    if StartsWith(name, "/") then name
    else if dir == [] || EndsWith(dir, "/") then dir + name
    else dir + "/" + name
  }

  function CsvPath(id: string): string {
    PathJoin(ExtractedDir, id + ".csv")
  }

  function TimestampText(t: Option<int>): string {
    match t
    case None => ""
    case Some(v) => IntToDecimal(v)
  }

  /** A line of a per-video CSV: the header, or the line of one comment. */
  datatype CsvLine = HeaderLine | DataLine(comment: CommentRecord)

  /** The characters of a line, without its newline; only the text field is
      quoted, and the other fields are written as they are. */
  function LineText(l: CsvLine): string {
    match l
    case HeaderLine => CsvHeader
    case DataLine(c) => c.id + ",\"" + c.text + "\"," + LineTail(c)
  }

  /** The fields of a comment's line after its quoted text. */
  function LineTail(c: CommentRecord): string {
    c.author + "," + IntToDecimal(c.likes) + "," + TimestampText(c.timestamp)
  }

  /** The lines of a per-video CSV: the header, then one line per comment in order. */
  function CsvLines(cs: seq<CommentRecord>): (lines: seq<CsvLine>)
    ensures |lines| == |cs| + 1 && lines[0] == HeaderLine
    ensures forall k :: 0 <= k < |cs| ==> lines[k + 1] == DataLine(cs[k])
  {
    [HeaderLine] + seq(|cs|, k requires 0 <= k < |cs| => DataLine(cs[k]))
  }

  /** What the file holds when the write of `lines` stops after `n` of them. */
  function Written(lines: seq<CsvLine>, n: nat): seq<CsvLine> {
    if n <= |lines| then lines[..n] else lines
  }

  /** A broken-off write leaves a prefix of the lines: exactly `n` of them
      when there were that many. */
  lemma WrittenIsPrefix(lines: seq<CsvLine>, n: nat)
    ensures |Written(lines, n)| <= |lines| && Written(lines, n) == lines[..|Written(lines, n)|]
    ensures n <= |lines| ==> |Written(lines, n)| == n
  {
  }

  /** The writing loop of one per-video CSV. */
  method WriteCsv(comments: seq<CommentRecord>) returns (lines: seq<CsvLine>)
    ensures lines == CsvLines(comments)
  {
    lines := [HeaderLine];
    var i := 0;
    while i < |comments|
      invariant 0 <= i <= |comments|
      invariant |lines| == i + 1 && lines[0] == HeaderLine
      invariant forall k :: 0 <= k < i ==> lines[k + 1] == DataLine(comments[k])
    {
      lines := lines + [DataLine(comments[i])];
      i := i + 1;
    }
  }

  /** `2 ** n` */
  function Pow2(n: nat): nat {
    if n == 0 then 1 else 2 * Pow2(n - 1)
  }

  /** How an attempt's CSV write ends: completely; raising in `open`, which
      leaves any file at the path as it was; or raising after `open` has
      truncated the file and some of the lines were written. */
  datatype WriteOutcome = WriteOk | OpenFails | WriteFails(linesWritten: nat)

  /** What `extract_comments` returns at each `(candidate, attempt)` when the
      library answers the attempt with `fetch(candidate, attempt)`. */
  function Extracted(fetch: (nat, nat) -> FetchResult): (nat, nat) -> (int, seq<CommentRecord>) {
    (i: nat, a: nat) => ExtractCommentsSpec(fetch(i, a))
  }

  /** The value stored in `analytics[video_url]`. */
  datatype VideoStats = VideoStats(title: string, totalComments: int, csvPath: string, uploadDate: string)

  type Analytics = PyDict.Dict<string, VideoStats>

  /** What became of one examined candidate; `attempt` is the attempt that ended it. */
  datatype VideoStatus =
    | SkippedNoUrl
    | SkippedAlreadyScraped
    | NoComments(attempt: nat)
    | Processed(attempt: nat)
    | FailedAfterRetries

  /** The orchestrator's locals, plus three records kept for the proofs:
      the ids whose save reached the ledger file, the `(candidate, attempt)`
      pairs for which comments were fetched, and each examined candidate's status. */
  datatype RunState = RunState(
    analytics: Analytics,
    csvPaths: seq<string>,
    processed: nat,
    videoCount: nat,
    delay: nat,
    files: map<string, seq<CsvLine>>,
    ledgerAdds: set<string>,
    fetched: seq<(nat, nat)>,
    statuses: seq<VideoStatus>)

  function InitialState(): RunState {
    RunState(PyDict.Empty(), [], 0, 0, 0, map[], {}, [], [])
  }

  function Saved(st: RunState, id: string, fault: SaveFault): RunState {
    if fault == NoFault then st.(ledgerAdds := st.ledgerAdds + {id}) else st
  }

  /** Where the candidate loop is: about to examine candidate `i`, or about
      to make attempt `attempt` at it, whose URL and id were already read. */
  datatype Pc = AtVideo | AtAttempt(attempt: nat, url: string, id: string)

  datatype Config = Config(st: RunState, i: nat, pc: Pc)

  /** What a run works on: the candidates, the requested count, the ledger
      snapshot and the world's answers. */
  datatype Inputs = Inputs(
    cands: seq<Candidate>,
    numVideos: int,
    snapshot: set<string>,
    extracted: (nat, nat) -> (int, seq<CommentRecord>),
    write: (nat, nat) -> WriteOutcome,
    saveFault: nat -> SaveFault)

  /** A configuration the loop can be in: an attempt is only pending for a
      candidate with a URL, with its id, and is one of attempts 1 to 3. */
  ghost predicate Wf(env: Inputs, c: Config) {
    && c.i <= |env.cands|
    && (c.pc.AtAttempt? ==>
          && c.i < |env.cands| && 1 <= c.pc.attempt <= 3
          && HasUrl(env.cands[c.i]) && c.pc.url == env.cands[c.i].url.value && c.pc.id == VideoId(c.pc.url))
  }

  function Measure(pc: Pc): nat {
    if pc.AtVideo? then 4 else if pc.attempt <= 3 then 4 - pc.attempt else 0
  }

  /** The stop test at the top of the candidate loop, or the end of the list. */
  predicate Done(env: Inputs, c: Config) {
    c.i >= |env.cands| || (c.pc.AtVideo? && c.st.processed >= env.numVideos)
  }

  /** Examining candidate `i`: skipped when it has no URL or its id is in
      the snapshot; otherwise counted, and its first attempt is next. */
  function Examine(env: Inputs, c: Config): (r: Config)
    requires Wf(env, c) && c.i < |env.cands| && c.pc.AtVideo?
    ensures Wf(env, r)
    ensures (r.i == c.i + 1 && r.pc.AtVideo?) || (r.i == c.i && r.pc.AtAttempt? && r.pc.attempt == 1)
  {
    var st := c.st;
    var cand := env.cands[c.i];
    if !HasUrl(cand) then Config(st.(statuses := st.statuses + [SkippedNoUrl]), c.i + 1, AtVideo)
    else
      var url := cand.url.value;
      var id := VideoId(url);
      var st1 := st.(videoCount := st.videoCount + 1);
      if id in env.snapshot then Config(st1.(statuses := st1.statuses + [SkippedAlreadyScraped]), c.i + 1, AtVideo)
      else Config(st1, c.i, AtAttempt(1, url, id))
  }

  /** An attempt whose `extract_comments` finds no comments: the id is
      saved and the video ends, without being counted as processed. */
  function EndNoComments(env: Inputs, c: Config): Config
    requires Wf(env, c) && c.pc.AtAttempt? && env.extracted(c.i, c.pc.attempt).1 == []
  {
    var st := c.st;
    var st1 := st.(fetched := st.fetched + [(c.i, c.pc.attempt)], statuses := st.statuses + [NoComments(c.pc.attempt)]);
    Config(Saved(st1, c.pc.id, env.saveFault(c.i)), c.i + 1, AtVideo)
  }

  /** An attempt whose CSV write raises: a write that got past `open`
      leaves the partial file, one that did not leaves the files as they
      were; the run sleeps `2 ** attempt`, and the next attempt follows, or,
      after the third, the video is given up. */
  function WriteFailed(env: Inputs, c: Config): (r: Config)
    requires Wf(env, c) && c.pc.AtAttempt? && env.extracted(c.i, c.pc.attempt).1 != []
    requires !env.write(c.i, c.pc.attempt).WriteOk?
    ensures Wf(env, r)
    ensures (r.i == c.i + 1 && r.pc.AtVideo?) || (r.i == c.i && r.pc.AtAttempt? && r.pc.attempt == c.pc.attempt + 1)
  {
    var st := c.st;
    var a := c.pc.attempt;
    var w := env.write(c.i, a);
    var lines := CsvLines(env.extracted(c.i, a).1);
    var st1 := st.(fetched := st.fetched + [(c.i, a)],
                   files := if w.WriteFails? then st.files[CsvPath(c.pc.id) := Written(lines, w.linesWritten)] else st.files,
                   delay := st.delay + Pow2(a));
    if a == 3 then Config(st1.(statuses := st1.statuses + [FailedAfterRetries]), c.i + 1, AtVideo)
    else Config(st1, c.i, AtAttempt(a + 1, c.pc.url, c.pc.id))
  }

  /** An attempt whose CSV write completes: the file holds every line, the
      video's analytics entry is set, its path appended, the processed count
      incremented and the id saved. */
  function Recorded(env: Inputs, c: Config): Config
    requires Wf(env, c) && c.pc.AtAttempt? && env.extracted(c.i, c.pc.attempt).1 != []
  {
    var st := c.st;
    var a := c.pc.attempt;
    var cand := env.cands[c.i];
    var res := env.extracted(c.i, a);
    var path := CsvPath(c.pc.id);
    var stats := VideoStats(cand.title.GetOr(DefaultTitle), res.0, path, cand.uploadDate.GetOr(DefaultUploadDate));
    var st1 := st.(fetched := st.fetched + [(c.i, a)],
                   files := st.files[path := CsvLines(res.1)],
                   analytics := PyDict.Put(st.analytics, c.pc.url, stats),
                   csvPaths := st.csvPaths + [path],
                   processed := st.processed + 1,
                   statuses := st.statuses + [Processed(a)]);
    Config(Saved(st1, c.pc.id, env.saveFault(c.i)), c.i + 1, AtVideo)
  }

  /** One step of the candidate loop: an examination, or one attempt. */
  function Next(env: Inputs, c: Config): (r: Config)
    requires Wf(env, c) && c.i < |env.cands|
    ensures Wf(env, r)
    ensures (r.i == c.i + 1 && r.pc.AtVideo?) || (r.i == c.i && r.pc.AtAttempt? && Measure(r.pc) < Measure(c.pc))
  {
    if c.pc.AtVideo? then Examine(env, c)
    else if env.extracted(c.i, c.pc.attempt).1 == [] then EndNoComments(env, c)
    else if env.write(c.i, c.pc.attempt).WriteOk? then Recorded(env, c)
    else WriteFailed(env, c)
  }

  /** The state the loop ends in when started from `c`. */
  function Run(env: Inputs, c: Config): RunState
    requires Wf(env, c)
    decreases |env.cands| - c.i, Measure(c.pc)
  {
    if Done(env, c) then c.st else Run(env, Next(env, c))
  }

  datatype ScrapeError = NoVideosFound

  function ErrorMessage(e: ScrapeError): string {
    match e
    case NoVideosFound => NoVideosMessage
  }

  /** The pair returned: the analytics and the path of the last CSV written. */
  datatype Report = Report(analytics: Analytics, csvPath: string)

  function ReportOf(st: RunState): Report {
    if st.analytics.Len() == 0 then Report(PyDict.Empty(), "")
    else Report(st.analytics, if st.csvPaths == [] then "" else st.csvPaths[|st.csvPaths| - 1])
  }

  /** The listing the run works on: twice the requested count is asked for. */
  function Listing(channelUrl: string, numVideos: int, listInfo: (string, int) -> ChannelInfo): seq<VideoRef> {
    VideosFromInfo(listInfo(NormalizeChannelUrl(channelUrl), numVideos * 2), numVideos * 2)
  }

  function RunInputs(videos: seq<VideoRef>, numVideos: int, snapshot: set<string>, fetch: (nat, nat) -> FetchResult,
                     write: (nat, nat) -> WriteOutcome, saveFault: nat -> SaveFault): Inputs {
    Inputs(AsCandidates(videos), numVideos, snapshot, Extracted(fetch), write, saveFault)
  }

  function Start(): Config {
    Config(InitialState(), 0, AtVideo)
  }

  /** The whole run, from the ledger snapshot taken at its start. */
  function ChannelRun(snapshot: set<string>, channelUrl: string, numVideos: int,
                      listInfo: (string, int) -> ChannelInfo, fetch: (nat, nat) -> FetchResult,
                      write: (nat, nat) -> WriteOutcome, saveFault: nat -> SaveFault): (Result<Report, ScrapeError>, RunState)
  {
    var videos := Listing(channelUrl, numVideos, listInfo);
    if videos == [] then (Err(NoVideosFound), InitialState())
    else
      var st := Run(RunInputs(videos, numVideos, snapshot, fetch, write, saveFault), Start());
      (Ok(ReportOf(st)), st)
  }

  /** One step of the loop proofs below. */
  lemma RunNext(env: Inputs, c: Config)
    requires Wf(env, c) && !Done(env, c)
    ensures Run(env, c) == Run(env, Next(env, c))
  {
  }

  /** `save_scraped_video(video_id)`; `adds` records whether the id reached the ledger file. */
  method SaveId(ledger: Ledger, ghost start: set<string>, videoId: string, fault: SaveFault, adds0: set<string>)
    returns (adds: set<string>)
    requires ledger.Ids() == start + adds0
    modifies ledger
    ensures adds == if fault == NoFault then adds0 + {videoId} else adds0
    ensures ledger.Ids() == start + adds
  {
    ledger.SaveScrapedVideo(videoId, fault);
    adds := if fault == NoFault then adds0 + {videoId} else adds0;
  }

  /** One pass of the attempts loop: the `try` block and its `except`
      branch for attempt `attempt`, on the loop state `st0`; `ended` tells
      whether the pass ended the loop with `break`. */
  method TryOnce(ledger: Ledger, ghost start: set<string>, ghost env: Inputs, i: nat, video: Candidate,
                 videoUrl: string, videoId: string, attempt: nat,
                 fetch: (nat, nat) -> FetchResult, write: (nat, nat) -> WriteOutcome, saveFault: nat -> SaveFault,
                 st0: RunState)
    returns (ended: bool, st: RunState)
    requires env.extracted(i, attempt) == ExtractCommentsSpec(fetch(i, attempt))
    requires env.write == write && env.saveFault == saveFault
    requires i < |env.cands| && env.cands[i] == video
    requires Wf(env, Config(st0, i, AtAttempt(attempt, videoUrl, videoId)))
    requires ledger.Ids() == start + st0.ledgerAdds
    modifies ledger
    ensures ledger.Ids() == start + st.ledgerAdds
    ensures var last := ended || attempt == 3;
      Config(st, if last then i + 1 else i, if last then AtVideo else AtAttempt(attempt + 1, videoUrl, videoId))
      == Next(env, Config(st0, i, AtAttempt(attempt, videoUrl, videoId)))
  {
    st := st0.(fetched := st0.fetched + [(i, attempt)]);
    var totalComments, comments := ExtractComments(fetch(i, attempt));
    if comments == [] {
      var adds := SaveId(ledger, start, videoId, saveFault(i), st.ledgerAdds);
      return true, st.(statuses := st.statuses + [NoComments(attempt)], ledgerAdds := adds);
    }
    var csvPath := CsvPath(videoId);
    var lines := WriteCsv(comments);
    var outcome := write(i, attempt);
    if !outcome.WriteOk? {
      if outcome.WriteFails? {
        // `open` truncated the file before the write raised
        st := st.(files := st.files[csvPath := Written(lines, outcome.linesWritten)]);
      }
      if attempt == 3 {
        st := st.(statuses := st.statuses + [FailedAfterRetries]);
      }
      return false, st.(delay := st.delay + Pow2(attempt));
    }
    var adds := SaveId(ledger, start, videoId, saveFault(i), st.ledgerAdds);
    st := st.(files := st.files[csvPath := lines],
              analytics := PyDict.Put(st.analytics, videoUrl,
                VideoStats(video.title.GetOr(DefaultTitle), totalComments, csvPath, video.uploadDate.GetOr(DefaultUploadDate))),
              csvPaths := st.csvPaths + [csvPath],
              ledgerAdds := adds,
              processed := st.processed + 1,
              statuses := st.statuses + [Processed(attempt)]);
    ended := true;
  }

  /** The attempts loop for one video (`for attempt in range(1, 4)`). */
  method ScrapeVideo(ledger: Ledger, ghost start: set<string>, ghost env: Inputs, i: nat, video: Candidate,
                     videoUrl: string, videoId: string,
                     fetch: (nat, nat) -> FetchResult, write: (nat, nat) -> WriteOutcome, saveFault: nat -> SaveFault,
                     st0: RunState)
    returns (st: RunState)
    requires env.extracted == Extracted(fetch) && env.write == write && env.saveFault == saveFault
    requires i < |env.cands| && env.cands[i] == video
    requires Wf(env, Config(st0, i, AtAttempt(1, videoUrl, videoId)))
    requires ledger.Ids() == start + st0.ledgerAdds
    modifies ledger
    ensures ledger.Ids() == start + st.ledgerAdds
    ensures Run(env, Config(st, i + 1, AtVideo)) == Run(env, Config(st0, i, AtAttempt(1, videoUrl, videoId)))
  {
    st := st0;
    ghost var target := Run(env, Config(st0, i, AtAttempt(1, videoUrl, videoId)));
    var attempt := 1;
    while attempt <= 3
      invariant 1 <= attempt <= 4
      invariant ledger.Ids() == start + st.ledgerAdds
      invariant attempt <= 3 ==> Run(env, Config(st, i, AtAttempt(attempt, videoUrl, videoId))) == target
      invariant attempt == 4 ==> Run(env, Config(st, i + 1, AtVideo)) == target
    {
      RunNext(env, Config(st, i, AtAttempt(attempt, videoUrl, videoId)));
      var ended;
      ended, st := TryOnce(ledger, start, env, i, video, videoUrl, videoId, attempt, fetch, write, saveFault, st);
      if ended {
        return;
      }
      attempt := attempt + 1;
    }
  }

  /** The body of the candidate loop after its stop test: skip a video
      without a URL or one already scraped, otherwise make its attempts. */
  method ExamineCandidate(ledger: Ledger, ghost start: set<string>, ghost env: Inputs, cands: seq<Candidate>, i: nat,
                          scrapedVideos: set<string>,
                          fetch: (nat, nat) -> FetchResult, write: (nat, nat) -> WriteOutcome, saveFault: nat -> SaveFault,
                          st0: RunState)
    returns (st: RunState)
    requires env.cands == cands && env.snapshot == scrapedVideos
    requires env.extracted == Extracted(fetch) && env.write == write && env.saveFault == saveFault
    requires i < |cands| && st0.processed < env.numVideos
    requires ledger.Ids() == start + st0.ledgerAdds
    modifies ledger
    ensures ledger.Ids() == start + st.ledgerAdds
    ensures Run(env, Config(st, i + 1, AtVideo)) == Run(env, Config(st0, i, AtVideo))
  {
    RunNext(env, Config(st0, i, AtVideo));
    ghost var post := Next(env, Config(st0, i, AtVideo));
    var video := cands[i];
    if !HasUrl(video) {
      st := st0.(statuses := st0.statuses + [SkippedNoUrl]);
      assert post == Config(st, i + 1, AtVideo);
      return;
    }
    var videoUrl := video.url.value;
    var videoId := VideoId(videoUrl);
    st := st0.(videoCount := st0.videoCount + 1);
    if videoId in scrapedVideos {
      st := st.(statuses := st.statuses + [SkippedAlreadyScraped]);
      assert post == Config(st, i + 1, AtVideo);
      return;
    }
    assert post == Config(st, i, AtAttempt(1, videoUrl, videoId));
    st := ScrapeVideo(ledger, start, env, i, video, videoUrl, videoId, fetch, write, saveFault, st);
  }

  method ExtractChannelComments(ledger: Ledger, channelUrl: string, numVideos: int,
                                listInfo: (string, int) -> ChannelInfo, fetch: (nat, nat) -> FetchResult,
                                write: (nat, nat) -> WriteOutcome, saveFault: nat -> SaveFault)
    returns (result: Result<Report, ScrapeError>, delay: nat, files: map<string, seq<CsvLine>>)
    modifies ledger
    ensures var run := ChannelRun(old(ledger.Ids()), channelUrl, numVideos, listInfo, fetch, write, saveFault);
      && result == run.0 && delay == run.1.delay && files == run.1.files
      && ledger.Ids() == old(ledger.Ids()) + run.1.ledgerAdds
  {
    var scrapedVideos := ledger.GetScrapedVideos();
    ghost var start := ledger.Ids();
    var videos := GetVideosFromChannel(channelUrl, numVideos * 2, listInfo);
    if videos == [] {
      return Err(NoVideosFound), 0, map[];
    }
    var cands := AsCandidates(videos);
    ghost var env := RunInputs(videos, numVideos, scrapedVideos, fetch, write, saveFault);
    // `analytics`, `csv_paths`, `processed_count`, `video_count` and the rest of the loop state
    var st := InitialState();
    ghost var final := Run(env, Start());

    var i := 0;
    while i < |cands|
      invariant i <= |cands|
      invariant ledger.Ids() == start + st.ledgerAdds
      invariant Run(env, Config(st, i, AtVideo)) == final
    {
      if st.processed >= numVideos {
        break;
      }
      st := ExamineCandidate(ledger, start, env, cands, i, scrapedVideos, fetch, write, saveFault, st);
      i := i + 1;
    }

    delay, files := st.delay, st.files;
    if st.analytics.Len() == 0 {
      return Ok(Report(PyDict.Empty(), "")), delay, files;
    }
    result := Ok(Report(st.analytics, if st.csvPaths == [] then "" else st.csvPaths[|st.csvPaths| - 1]));
  }
}
