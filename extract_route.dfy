/** The `GET /extract_channel` handler: it runs the channel orchestrator,
    then either answers a JSON summary (channel id, number of videos, total
    comments) or, for a download, reads every video's CSV back, tags its rows
    with the channel and the video, concatenates them in analytics order and
    answers the combined file. Every exception becomes a 500 answer carrying
    its message. The file system's `exists` is the set `disk` of files
    present before the run plus the files the run wrote; pandas' CSV reader
    is the parameter `readCsv`, and `datetime.now()` the text `timestamp`. */
module ExtractRoute {
  import opened Wrappers
  import opened Text
  import PyDict
  import opened VideoList
  import opened CommentExtractor
  import opened ScrapedLedger
  import opened ChannelScraper
  import opened ChannelScraperProps

  const NotFoundMessage := "404: CSV file not found"
  const NoObjectsMessage := "No objects to concatenate"
  const CsvMediaType := "text/csv"

  /** `channel_url.split('@')[-1].split('/')[0]` */
  function ChannelId(channelUrl: string): string {
    BeforeFirstChar(AfterLastChar(channelUrl, '@'), '/')
  }

  /** A row as pandas reads it from a per-video CSV. */
  datatype CsvRow = CsvRow(cells: seq<string>)

  /** A row of the combined export: the video's row and the four added columns. */
  datatype TaggedRow = TaggedRow(row: CsvRow, channelId: string, videoUrl: string, videoTitle: string, uploadDate: string)

  /** The JSON summary of a non-download request. */
  datatype Summary = Summary(channelId: string, numScrapedVideos: nat, totalComments: int)

  datatype Response =
    | Success(summary: Summary)
    | Failure(statusCode: nat, message: string)
    | Download(path: string, mediaType: string, filename: string, rows: seq<TaggedRow>)

  /** `sum(v['total_comments'] for v in stats.values())` */
  function SumComments(vs: seq<VideoStats>): int {
    if vs == [] then 0 else SumComments(vs[..|vs| - 1]) + vs[|vs| - 1].totalComments
  }

  /** The four columns set on one video's frame. */
  function Tag(rows: seq<CsvRow>, channelId: string, videoUrl: string, data: VideoStats): (r: seq<TaggedRow>)
    ensures |r| == |rows|
    ensures forall j :: 0 <= j < |rows| ==> r[j] == TaggedRow(rows[j], channelId, videoUrl, data.title, data.uploadDate)
  {
    seq(|rows|, j requires 0 <= j < |rows| => TaggedRow(rows[j], channelId, videoUrl, data.title, data.uploadDate))
  }

  /** The frames of the videos `keys`, in order, or the first read's error.
      `readCsv` stands for pandas' reader on a path alone: it is not tied to
      the lines the run wrote there. */
  function Frames(keys: seq<string>, vals: map<string, VideoStats>, channelId: string,
                  readCsv: string -> Result<seq<CsvRow>, string>): Result<seq<seq<TaggedRow>>, string>
    requires forall u :: u in keys ==> u in vals
  {
    if keys == [] then Ok([])
    else
      var u := keys[|keys| - 1];
      match Frames(keys[..|keys| - 1], vals, channelId, readCsv)
      case Err(m) => Err(m)
      case Ok(fs) =>
        match readCsv(vals[u].csvPath)
        case Err(m) => Err(m)
        case Ok(rows) => Ok(fs + [Tag(rows, channelId, u, vals[u])])
  }

  /** `pd.concat` of the frames' rows, in order. */
  function Concat(fs: seq<seq<TaggedRow>>): seq<TaggedRow> {
    if fs == [] then [] else Concat(fs[..|fs| - 1]) + fs[|fs| - 1]
  }

  /** `os.path.exists`: never for the empty path. */
  predicate PathExists(disk: set<string>, written: map<string, seq<CsvLine>>, p: string) {
    p != "" && (p in disk || p in written)
  }

  function CombinedPath(channelId: string, timestamp: string): string {
    ExtractedDir + "/combined_" + channelId + "_" + timestamp + ".csv"
  }

  function DownloadName(channelId: string): string {
    "youtube_comments_" + channelId + "_all_videos.csv"
  }

  /** The download branch on the orchestrator's pair. */
  function DownloadResponse(channelId: string, rep: Report, written: map<string, seq<CsvLine>>, disk: set<string>,
                            readCsv: string -> Result<seq<CsvRow>, string>, timestamp: string): Response
    requires rep.analytics.Valid()
  {
    if !PathExists(disk, written, rep.csvPath) then Failure(500, NotFoundMessage)
    else
      match Frames(rep.analytics.keys, rep.analytics.vals, channelId, readCsv)
      case Err(m) => Failure(500, m)
      case Ok(fs) =>
        if fs == [] then Failure(500, NoObjectsMessage)
        else Download(CombinedPath(channelId, timestamp), CsvMediaType, DownloadName(channelId), Concat(fs))
  }

  /** The answer for the orchestrator's outcome. */
  function RouteResponse(channelUrl: string, download: bool, outcome: Result<Report, ScrapeError>,
                         written: map<string, seq<CsvLine>>, disk: set<string>,
                         readCsv: string -> Result<seq<CsvRow>, string>, timestamp: string): Response
    requires outcome.Ok? ==> outcome.value.analytics.Valid()
  {
    match outcome
    case Err(e) => Failure(500, ErrorMessage(e))
    case Ok(rep) =>
      var channelId := ChannelId(channelUrl);
      if download then DownloadResponse(channelId, rep, written, disk, readCsv, timestamp)
      else Success(Summary(channelId, rep.analytics.Len(), SumComments(rep.analytics.Values())))
  }

  /** The download loop over `stats.items()`: read each video's CSV, tag
      its rows, append the frame; a read that raises ends the request. */
  method CombineFrames(stats: Analytics, channelId: string, readCsv: string -> Result<seq<CsvRow>, string>)
    returns (result: Result<seq<seq<TaggedRow>>, string>)
    requires stats.Valid()
    ensures result == Frames(stats.keys, stats.vals, channelId, readCsv)
  {
    var allComments: seq<seq<TaggedRow>> := [];
    var i := 0;
    while i < |stats.keys|
      invariant 0 <= i <= |stats.keys|
      invariant Frames(stats.keys[..i], stats.vals, channelId, readCsv) == Ok(allComments)
    {
      var videoUrl := stats.keys[i];
      assert stats.keys[..i + 1][..i] == stats.keys[..i];
      var videoData := stats.vals[videoUrl];
      var read := readCsv(videoData.csvPath);
      if read.Err? {
        FramesErrStays(stats.keys, i + 1, stats.vals, channelId, readCsv);
        return Err(read.error);
      }
      allComments := allComments + [Tag(read.value, channelId, videoUrl, videoData)];
      i := i + 1;
    }
    assert stats.keys[..i] == stats.keys;
    result := Ok(allComments);
  }

  /** Once a read fails, the frames of any longer prefix fail with the same message. */
  lemma {:induction false} FramesErrStays(keys: seq<string>, n: nat, vals: map<string, VideoStats>, channelId: string,
                                          readCsv: string -> Result<seq<CsvRow>, string>)
    requires n <= |keys| && forall u :: u in keys ==> u in vals
    requires Frames(keys[..n], vals, channelId, readCsv).Err?
    ensures Frames(keys, vals, channelId, readCsv) == Frames(keys[..n], vals, channelId, readCsv)
    decreases |keys| - n
  {
    if n < |keys| {
      assert keys[..n + 1][..n] == keys[..n];
      FramesErrStays(keys, n + 1, vals, channelId, readCsv);
    } else {
      assert keys[..n] == keys;
    }
  }

  /** `extract_channel`: the orchestrator's run, then the answer. */
  method ExtractChannel(ledger: Ledger, channelUrl: string, numVideos: int, download: bool,
                        listInfo: (string, int) -> ChannelInfo, fetch: (nat, nat) -> FetchResult,
                        write: (nat, nat) -> WriteOutcome, saveFault: nat -> SaveFault,
                        disk: set<string>, readCsv: string -> Result<seq<CsvRow>, string>, timestamp: string)
    returns (response: Response)
    modifies ledger
    ensures var run := ChannelRun(old(ledger.Ids()), channelUrl, numVideos, listInfo, fetch, write, saveFault);
      && (run.0.Ok? ==> ReportFacts(run.0.value, run.1.files))
      && response == RouteResponse(channelUrl, download, run.0, run.1.files, disk, readCsv, timestamp)
      && ledger.Ids() == old(ledger.Ids()) + run.1.ledgerAdds
  {
    ghost var snapshot := ledger.Ids();
    var result, delay, written := ExtractChannelComments(ledger, channelUrl, numVideos, listInfo, fetch, write, saveFault);
    RunReport(snapshot, channelUrl, numVideos, listInfo, fetch, write, saveFault);
    if result.Err? {
      return Failure(500, ErrorMessage(result.error));
    }
    var stats := result.value.analytics;
    var csvPath := result.value.csvPath;
    var channelId := ChannelId(channelUrl);
    if !download {
      return Success(Summary(channelId, stats.Len(), SumComments(stats.Values())));
    }
    if !PathExists(disk, written, csvPath) {
      return Failure(500, NotFoundMessage);
    }
    var frames := CombineFrames(stats, channelId, readCsv);
    if frames.Err? {
      return Failure(500, frames.error);
    }
    if frames.value == [] {
      return Failure(500, NoObjectsMessage);
    }
    response := Download(CombinedPath(channelId, timestamp), CsvMediaType, DownloadName(channelId), Concat(frames.value));
  }

  /** What the handler relies on in the orchestrator's pair: a well-formed
      dict; the empty path when it is empty, a file the run wrote when not;
      every entry counting at least one comment. */
  ghost predicate ReportFacts(rep: Report, written: map<string, seq<CsvLine>>) {
    && rep.analytics.Valid()
    && (rep.analytics.Len() == 0 ==> rep.csvPath == "")
    && (rep.analytics.Len() > 0 ==> rep.csvPath != "" && rep.csvPath in written)
    && forall j :: 0 <= j < |rep.analytics.keys| ==>
         rep.analytics.keys[j] in rep.analytics.vals && rep.analytics.vals[rep.analytics.keys[j]].totalComments >= 1
  }

  /** The pair of every run that does not raise has those facts. */
  lemma RunReport(snapshot: set<string>, channelUrl: string, numVideos: int,
                  listInfo: (string, int) -> ChannelInfo, fetch: (nat, nat) -> FetchResult,
                  write: (nat, nat) -> WriteOutcome, saveFault: nat -> SaveFault)
    ensures var run := ChannelRun(snapshot, channelUrl, numVideos, listInfo, fetch, write, saveFault);
      run.0.Ok? ==> ReportFacts(run.0.value, run.1.files)
  {
    var videos := Listing(channelUrl, numVideos, listInfo);
    ChannelRunSpec(snapshot, channelUrl, numVideos, listInfo, fetch, write, saveFault);
    if videos != [] {
      var env := RunInputs(videos, numVideos, snapshot, fetch, write, saveFault);
      var s := StopFrom(env, 0);
      BeforeReport(videos, numVideos, snapshot, fetch, write, saveFault, s);
    }
  }

  /** The facts after any number of candidates. */
  lemma BeforeReport(videos: seq<VideoRef>, numVideos: int, snapshot: set<string>, fetch: (nat, nat) -> FetchResult,
                     write: (nat, nat) -> WriteOutcome, saveFault: nat -> SaveFault, i: nat)
    requires i <= |RunInputs(videos, numVideos, snapshot, fetch, write, saveFault).cands|
    ensures var st := Before(RunInputs(videos, numVideos, snapshot, fetch, write, saveFault), i);
      ReportFacts(ReportOf(st), st.files)
  {
    var env := RunInputs(videos, numVideos, snapshot, fetch, write, saveFault);
    ReportSpec(env, i);
    ReportedPathWritten(env, i);
    AnalyticsShape(env, i);
    var rep := ReportOf(Before(env, i));
    if LastProcessed(env, i).Some? {
      var id := IdOf(env, LastProcessed(env, i).value);
      assert |CsvPath(id)| > 0 by {
        assert |id + ".csv"| > 0;
      }
      forall j | 0 <= j < |rep.analytics.keys|
        ensures rep.analytics.keys[j] in rep.analytics.vals && rep.analytics.vals[rep.analytics.keys[j]].totalComments >= 1
      {
        assert rep.analytics.keys[j] in rep.analytics.vals;
        EntriesOfRun(videos, numVideos, snapshot, fetch, write, saveFault, i, rep.analytics.keys[j]);
      }
    }
  }

  // ---------------------------------------------------------------------
  // The channel id

  /** The id is free of both separators and lies inside the URL. */
  lemma ChannelIdShape(channelUrl: string)
    ensures var r := ChannelId(channelUrl);
      '@' !in r && '/' !in r && |r| <= |channelUrl|
  {
    BeforeFirstCharSpec(AfterLastChar(channelUrl, '@'), '/');
  }

  /** A handle URL `…/@name/rest` names `name`, whatever comes before it. */
  lemma ChannelIdOfHandle(prefix: string, name: string, rest: string)
    requires '@' !in name && '/' !in name && '@' !in rest
    ensures ChannelId(prefix + "@" + name + "/" + rest) == name
  {
    var tail := name + "/" + rest;
    assert prefix + "@" + name + "/" + rest == prefix + ['@'] + tail;
    AfterLastCharConcat(prefix, '@', tail);
    assert tail[..|name|] == name;
    BeforeFirstCharAt(tail, '/', |name|);
  }

  /** A URL without any `@` is not cut at a handle: its id is everything
      before its first `/`. */
  lemma ChannelIdWithoutHandle(u: string)
    requires '@' !in u
    ensures ChannelId(u) == BeforeFirstChar(u, '/')
  {
  }

  /** A URL ending in the handle, without a trailing path. */
  lemma ChannelIdOfBareHandle(prefix: string, name: string)
    requires '@' !in name && '/' !in name
    ensures ChannelId(prefix + "@" + name) == name
  {
    assert prefix + "@" + name == prefix + ['@'] + name;
    AfterLastCharConcat(prefix, '@', name);
    BeforeFirstCharFree(name, '/');
  }

  // ---------------------------------------------------------------------
  // Reading the frames back

  /** The frames are all read or the first unreadable CSV's error. */
  lemma {:induction false} FramesSpec(keys: seq<string>, vals: map<string, VideoStats>, channelId: string,
                                      readCsv: string -> Result<seq<CsvRow>, string>)
    requires forall u :: u in keys ==> u in vals
    ensures var r := Frames(keys, vals, channelId, readCsv);
      && (r.Ok? <==> forall j :: 0 <= j < |keys| ==> readCsv(vals[keys[j]].csvPath).Ok?)
      && (r.Ok? ==> |r.value| == |keys|)
      && (r.Ok? ==> forall j :: 0 <= j < |keys| ==>
            r.value[j] == Tag(readCsv(vals[keys[j]].csvPath).value, channelId, keys[j], vals[keys[j]]))
      && (r.Err? ==> exists j :: 0 <= j < |keys| && readCsv(vals[keys[j]].csvPath) == Err(r.error)
                                 && forall i :: 0 <= i < j ==> readCsv(vals[keys[i]].csvPath).Ok?)
  {
    if keys != [] {
      var init := keys[..|keys| - 1];
      var u := keys[|keys| - 1];
      assert forall v :: v in init ==> v in keys;
      FramesSpec(init, vals, channelId, readCsv);
      assert forall j :: 0 <= j < |init| ==> init[j] == keys[j];
      var prev := Frames(init, vals, channelId, readCsv);
      if prev.Err? {
        var j :| 0 <= j < |init| && readCsv(vals[init[j]].csvPath) == Err(prev.error)
                 && forall i :: 0 <= i < j ==> readCsv(vals[init[i]].csvPath).Ok?;
        assert readCsv(vals[keys[j]].csvPath) == Err(prev.error);
      } else if readCsv(vals[u].csvPath).Err? {
        var j := |keys| - 1;
        assert readCsv(vals[keys[j]].csvPath).Err?;
      }
    }
  }

  /** `pd.concat` of two lists of frames is the two concatenations, one after the other. */
  lemma {:induction false} ConcatAppend(a: seq<seq<TaggedRow>>, b: seq<seq<TaggedRow>>)
    ensures Concat(a + b) == Concat(a) + Concat(b)
  {
    if b != [] {
      assert (a + b)[..|a + b| - 1] == a + b[..|b| - 1];
      ConcatAppend(a, b[..|b| - 1]);
    } else {
      assert a + b == a;
    }
  }

  /** The combined rows are the frames in order: frame `j` starts right
      after the rows of the frames before it. */
  lemma ConcatPlacesFrame(fs: seq<seq<TaggedRow>>, j: nat)
    requires j < |fs|
    ensures var at := |Concat(fs[..j])|;
      at + |fs[j]| <= |Concat(fs)| && Concat(fs)[at..at + |fs[j]|] == fs[j]
  {
    assert fs == fs[..j] + [fs[j]] + fs[j + 1..];
    ConcatAppend(fs[..j] + [fs[j]], fs[j + 1..]);
    ConcatAppend(fs[..j], [fs[j]]);
    assert Concat([fs[j]]) == fs[j] by {
      assert [fs[j]][..0] == [];
    }
  }

  /** Every combined row is a row of one frame. */
  lemma {:induction false} ConcatRowOrigin(fs: seq<seq<TaggedRow>>, t: TaggedRow)
    requires t in Concat(fs)
    ensures exists j :: 0 <= j < |fs| && t in fs[j]
  {
    var init := fs[..|fs| - 1];
    if t in Concat(init) {
      ConcatRowOrigin(init, t);
      var j :| 0 <= j < |init| && t in init[j];
      assert fs[j] == init[j];
    } else {
      assert t in fs[|fs| - 1];
    }
  }

  /** Every row of the combined export carries the channel id and the URL,
      title and upload date of a video of the analytics. */
  lemma CombinedRowsTagged(stats: Analytics, channelId: string, readCsv: string -> Result<seq<CsvRow>, string>, t: TaggedRow)
    requires stats.Valid() && Frames(stats.keys, stats.vals, channelId, readCsv).Ok?
    requires t in Concat(Frames(stats.keys, stats.vals, channelId, readCsv).value)
    ensures t.channelId == channelId && t.videoUrl in stats.vals
    ensures t.videoTitle == stats.vals[t.videoUrl].title && t.uploadDate == stats.vals[t.videoUrl].uploadDate
  {
    var fs := Frames(stats.keys, stats.vals, channelId, readCsv).value;
    FramesSpec(stats.keys, stats.vals, channelId, readCsv);
    ConcatRowOrigin(fs, t);
    var j :| 0 <= j < |fs| && t in fs[j];
    var n :| 0 <= n < |fs[j]| && fs[j][n] == t;
    assert stats.keys[j] in stats.vals;
  }

  // ---------------------------------------------------------------------
  // The answers

  /** Any orchestrator exception is a 500 answer carrying its message. */
  lemma ErrorIsServerError(channelUrl: string, download: bool, e: ScrapeError, written: map<string, seq<CsvLine>>,
                           disk: set<string>, readCsv: string -> Result<seq<CsvRow>, string>, timestamp: string)
    ensures RouteResponse(channelUrl, download, Err(e), written, disk, readCsv, timestamp) == Failure(500, ErrorMessage(e))
    ensures RouteResponse(channelUrl, download, Err(NoVideosFound), written, disk, readCsv, timestamp).message == NoVideosMessage
  {
  }

  /** The comments of the entries add up to at least their number when each
      entry counts at least one. */
  lemma {:induction false} SumAtLeastCount(vs: seq<VideoStats>)
    requires forall j :: 0 <= j < |vs| ==> vs[j].totalComments >= 1
    ensures SumComments(vs) >= |vs|
    ensures vs == [] ==> SumComments(vs) == 0
  {
    if vs != [] {
      SumAtLeastCount(vs[..|vs| - 1]);
    }
  }

  /** An orchestrator pair with no analytics: the summary is zero videos and
      zero comments, and a download fails on the missing CSV (the 404 the
      handler raises turns into a 500). */
  lemma EmptyReportAnswers(channelUrl: string, written: map<string, seq<CsvLine>>, disk: set<string>,
                           readCsv: string -> Result<seq<CsvRow>, string>, timestamp: string)
    ensures RouteResponse(channelUrl, false, Ok(Report(PyDict.Empty(), "")), written, disk, readCsv, timestamp)
            == Success(Summary(ChannelId(channelUrl), 0, 0))
    ensures RouteResponse(channelUrl, true, Ok(Report(PyDict.Empty(), "")), written, disk, readCsv, timestamp)
            == Failure(500, NotFoundMessage)
  {
    var e: Analytics := PyDict.Empty();
    SumAtLeastCount(e.Values());
  }

  /** Read frames are one per video. */
  lemma {:induction false} FramesLength(keys: seq<string>, vals: map<string, VideoStats>, channelId: string,
                                        readCsv: string -> Result<seq<CsvRow>, string>)
    requires forall u :: u in keys ==> u in vals
    ensures var r := Frames(keys, vals, channelId, readCsv); r.Ok? ==> |r.value| == |keys|
  {
    if keys != [] {
      assert forall v :: v in keys[..|keys| - 1] ==> v in keys;
      FramesLength(keys[..|keys| - 1], vals, channelId, readCsv);
    }
  }

  /** The summary of a pair with those facts counts its entries and at
      least as many comments. */
  lemma SummaryAnswer(rep: Report, written: map<string, seq<CsvLine>>, channelUrl: string,
                      disk: set<string>, readCsv: string -> Result<seq<CsvRow>, string>, timestamp: string)
    requires ReportFacts(rep, written)
    ensures var resp := RouteResponse(channelUrl, false, Ok(rep), written, disk, readCsv, timestamp);
      && resp.Success? && resp.summary.channelId == ChannelId(channelUrl)
      && resp.summary.numScrapedVideos == rep.analytics.Len()
      && resp.summary.totalComments >= rep.analytics.Len()
  {
    var vs := rep.analytics.Values();
    assert forall j :: 0 <= j < |vs| ==> vs[j] == rep.analytics.vals[rep.analytics.keys[j]];
    SumAtLeastCount(vs);
  }

  /** A download of a pair with those facts fails on the missing CSV when
      it is empty; otherwise it finds the CSV and answers the tagged frames
      in analytics order unless a read raises. The empty concatenation is
      never reached. */
  lemma DownloadAnswer(rep: Report, written: map<string, seq<CsvLine>>, channelUrl: string,
                       disk: set<string>, readCsv: string -> Result<seq<CsvRow>, string>, timestamp: string)
    requires ReportFacts(rep, written)
    ensures var stats := rep.analytics;
      var resp := RouteResponse(channelUrl, true, Ok(rep), written, disk, readCsv, timestamp);
      var channelId := ChannelId(channelUrl);
      && (stats.Len() == 0 ==> resp == Failure(500, NotFoundMessage))
      && (stats.Len() > 0 ==>
            match Frames(stats.keys, stats.vals, channelId, readCsv)
            case Err(m) => resp == Failure(500, m)
            case Ok(fs) => resp == Download(CombinedPath(channelId, timestamp), CsvMediaType,
                                            DownloadName(channelId), Concat(fs)))
  {
    var stats := rep.analytics;
    if stats.Len() > 0 {
      assert rep.csvPath in written;
      FramesLength(stats.keys, stats.vals, ChannelId(channelUrl), readCsv);
    }
  }

  /** The answer to a run of the orchestrator. */
  lemma RunAnswers(snapshot: set<string>, channelUrl: string, numVideos: int, download: bool,
                   listInfo: (string, int) -> ChannelInfo, fetch: (nat, nat) -> FetchResult,
                   write: (nat, nat) -> WriteOutcome, saveFault: nat -> SaveFault,
                   disk: set<string>, readCsv: string -> Result<seq<CsvRow>, string>, timestamp: string)
    ensures var run := ChannelRun(snapshot, channelUrl, numVideos, listInfo, fetch, write, saveFault);
      && (run.0.Err? ==> RouteResponse(channelUrl, download, run.0, run.1.files, disk, readCsv, timestamp)
                         == Failure(500, NoVideosMessage))
      && (run.0.Ok? ==>
            var stats := run.0.value.analytics;
            ReportFacts(run.0.value, run.1.files)
            && var resp := RouteResponse(channelUrl, download, run.0, run.1.files, disk, readCsv, timestamp);
            && (!download ==> resp.Success? && resp.summary.numScrapedVideos == stats.Len()
                                && resp.summary.totalComments >= stats.Len())
            && (download && stats.Len() == 0 ==> resp == Failure(500, NotFoundMessage))
            && (download && stats.Len() > 0 ==>
                  match Frames(stats.keys, stats.vals, ChannelId(channelUrl), readCsv)
                  case Err(m) => resp == Failure(500, m)
                  case Ok(fs) => resp.Download? && resp.rows == Concat(fs)))
  {
    var run := ChannelRun(snapshot, channelUrl, numVideos, listInfo, fetch, write, saveFault);
    RunReport(snapshot, channelUrl, numVideos, listInfo, fetch, write, saveFault);
    ChannelRunSpec(snapshot, channelUrl, numVideos, listInfo, fetch, write, saveFault);
    if run.0.Ok? {
      if download {
        DownloadAnswer(run.0.value, run.1.files, channelUrl, disk, readCsv, timestamp);
      } else {
        SummaryAnswer(run.0.value, run.1.files, channelUrl, disk, readCsv, timestamp);
      }
    }
  }
}
