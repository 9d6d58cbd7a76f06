/** What a channel run does, candidate by candidate. `StatusOf` says, from
    the candidate and the world's answers alone, how the examination of one
    candidate ends; the `…UpTo` functions accumulate, over the first `i`
    candidates, what the orchestrator's locals should then hold. The lemmas
    show that the loop (`Run`, and so `ExtractChannelComments`) ends in
    exactly that state at the first candidate where the stop test holds, and
    prove the promised properties about the accumulated values. */
module ChannelScraperProps {
  import opened Wrappers
  import opened Text
  import PyDict
  import opened VideoList
  import opened CommentExtractor
  import opened ScrapedLedger
  import opened ChannelScraper

  // ---------------------------------------------------------------------
  // Video ids and CSV lines

  /** The id of a watch URL built from an id free of `&` and of `v=` is that id. */
  lemma VideoIdOfWatchUrl(id: string)
    requires '&' !in id && FreeOfPair(id, 'v', '=')
    ensures VideoId(WatchUrlPrefix + id) == id
  {
    assert WatchUrlPrefix + id == "https://youtube.com/watch?" + ['v', '='] + id;
    AfterLastPairConcat("https://youtube.com/watch?", 'v', '=', id);
    BeforeFirstCharFree(id, '&');
  }

  /** An id is free of `&` and of `v=`, and no longer than its URL; so building a
      watch URL from it and taking the id again gives it back. */
  lemma VideoIdShape(url: string)
    ensures var id := VideoId(url);
      && |id| <= |url| && '&' !in id && FreeOfPair(id, 'v', '=')
      && VideoId(WatchUrlPrefix + id) == id
  {
    var r := AfterLastPair(url, 'v', '=');
    var id := VideoId(url);
    AfterLastPairSpec(url, 'v', '=');
    BeforeFirstCharSpec(r, '&');
    forall k | 0 <= k < |id| - 1
      ensures !(id[k] == 'v' && id[k + 1] == '=')
    {
      assert id[k] == r[k] && id[k + 1] == r[k + 1];
    }
    VideoIdOfWatchUrl(id);
  }

  /** `os.path.join` puts a relative id's file under the extraction
      directory, and lets an id that starts with `/` escape it. */
  lemma CsvPathSpec(id: string)
    ensures !StartsWith(id, "/") ==> CsvPath(id) == ExtractedDir + "/" + id + ".csv"
    ensures StartsWith(id, "/") ==> CsvPath(id) == id + ".csv"
  {
    var name := id + ".csv";
    assert StartsWith(name, "/") <==> StartsWith(id, "/") by {
      if id != [] {
        assert name[..1] == id[..1];
      } else {
        assert name[..1] == ['.'];
      }
    }
    assert !EndsWith(ExtractedDir, "/") by {
      assert ExtractedDir[|ExtractedDir| - 1] == 'd';
    }
  }

  /** Distinct relative ids get distinct CSV paths. */
  lemma CsvPathInjective(a: string, b: string)
    requires !StartsWith(a, "/") && !StartsWith(b, "/")
    requires CsvPath(a) == CsvPath(b)
    ensures a == b
  {
    CsvPathSpec(a);
    CsvPathSpec(b);
    var pre := ExtractedDir + "/";
    assert CsvPath(a) == pre + (a + ".csv") && CsvPath(b) == pre + (b + ".csv");
    assert a + ".csv" == CsvPath(a)[|pre|..] == b + ".csv";
    assert a == (a + ".csv")[..|a|];
    assert b == (b + ".csv")[..|b|];
  }

  /** A listed video's URL is the watch URL of its entry's id, and the
      orchestrator recovers that id when it is free of `&` and of `v=`. */
  lemma ListedVideoId(info: ChannelInfo, numVideos: int, v: VideoRef)
    requires v in VideosFromInfo(info, numVideos)
    ensures exists id :: id != "" && v.url == WatchUrlPrefix + id
                         && ('&' !in id && FreeOfPair(id, 'v', '=') ==> VideoId(v.url) == id)
  {
    VideosFromInfoUrls(info, numVideos, v);
    var id :| id != "" && v.url == WatchUrlPrefix + id;
    if '&' !in id && FreeOfPair(id, 'v', '=') {
      VideoIdOfWatchUrl(id);
    }
  }

  /** Every candidate of a run has a URL: the skip for a missing URL is
      never taken on a listing made by `get_videos_from_channel`. */
  lemma ListedCandidatesHaveUrl(videos: seq<VideoRef>, numVideos: int, snapshot: set<string>,
                                fetch: (nat, nat) -> FetchResult, write: (nat, nat) -> WriteOutcome,
                                saveFault: nat -> SaveFault, info: ChannelInfo, k: nat)
    requires videos == VideosFromInfo(info, numVideos * 2)
    requires k < |videos|
    ensures var env := RunInputs(videos, numVideos, snapshot, fetch, write, saveFault);
      HasUrl(env.cands[k]) && StatusOf(env, k) != SkippedNoUrl
  {
    VideosFromInfoUrls(info, numVideos * 2, videos[k]);
  }

  /** A comment line reads back: its id runs to the first comma, and its
      text is the quoted field after it, closed by the next quote. */
  lemma DataLineReadsBack(c: CommentRecord)
    requires ',' !in c.id && '"' !in c.text
    ensures var t := LineText(DataLine(c));
      && BeforeFirstChar(t, ',') == c.id
      && |c.id| + 2 <= |t| && t[|c.id| + 1] == '"'
      && BeforeFirstChar(t[|c.id| + 2..], '"') == c.text
  {
    FieldsReadBack(c.id, c.text, LineTail(c));
  }

  /** The first two fields of a line `id,"text",rest` read back. */
  lemma FieldsReadBack(id: string, text: string, rest: string)
    requires ',' !in id && '"' !in text
    ensures var t := id + ",\"" + text + "\"," + rest;
      && BeforeFirstChar(t, ',') == id
      && |id| + 2 <= |t| && t[|id| + 1] == '"'
      && BeforeFirstChar(t[|id| + 2..], '"') == text
  {
    var t := id + ",\"" + text + "\"," + rest;
    var n, m := |id|, |text|;
    assert t[..n] == id && t[n] == ',' && t[n + 1] == '"';
    BeforeFirstCharAt(t, ',', n);
    var u := t[n + 2..];
    assert u[..m] == text && u[m] == '"';
    BeforeFirstCharAt(u, '"', m);
  }

  // ---------------------------------------------------------------------
  // One candidate, from its answers alone

  /** The status attempts `a`, `a + 1`, … at candidate `k` end in: the first
      attempt without comments or with a completed write ends the video;
      three broken writes give it up. */
  function Outcome(env: Inputs, k: nat, a: nat): VideoStatus
    decreases 4 - a
  {
    if a > 3 then FailedAfterRetries
    else if env.extracted(k, a).1 == [] then NoComments(a)
    else if env.write(k, a).WriteOk? then Processed(a)
    else Outcome(env, k, a + 1)
  }

  function UrlOf(env: Inputs, k: nat): string
    requires k < |env.cands|
  {
    env.cands[k].url.GetOr("")
  }

  function IdOf(env: Inputs, k: nat): string
    requires k < |env.cands|
  {
    VideoId(UrlOf(env, k))
  }

  /** How the examination of candidate `k` ends. */
  function StatusOf(env: Inputs, k: nat): VideoStatus
    requires k < |env.cands|
  {
    if !HasUrl(env.cands[k]) then SkippedNoUrl
    else if IdOf(env, k) in env.snapshot then SkippedAlreadyScraped
    else Outcome(env, k, 1)
  }

  /** Whether the status saves the id to the ledger. */
  predicate Saves(s: VideoStatus) {
    s.NoComments? || s.Processed?
  }

  /** How many times the library is asked for comments. */
  function AttemptsUsed(s: VideoStatus): nat {
    match s
    case SkippedNoUrl => 0
    case SkippedAlreadyScraped => 0
    case NoComments(a) => a
    case Processed(a) => a
    case FailedAfterRetries => 3
  }

  /** The total sleep after failures `1` to `n`: `2 + 4 + … + 2 ** n`. */
  function Backoff(n: int): nat {
    if n <= 0 then 0 else Backoff(n - 1) + Pow2(n)
  }

  /** The sleep a candidate costs: one backoff per broken write. */
  function StatusDelay(s: VideoStatus): nat {
    match s
    case SkippedNoUrl => 0
    case SkippedAlreadyScraped => 0
    case NoComments(a) => Backoff(a - 1)
    case Processed(a) => Backoff(a - 1)
    case FailedAfterRetries => Backoff(3)
  }

  /** The `(candidate, attempt)` pairs `(k, lo)`, …, `(k, hi)`. */
  function AttemptRange(k: nat, lo: nat, hi: nat): seq<(nat, nat)>
    decreases hi - lo
  {
    if hi < lo then [] else [(k, lo)] + AttemptRange(k, lo + 1, hi)
  }

  /** The analytics entry of candidate `k` when its attempt `a` succeeds. */
  function StatsOf(env: Inputs, k: nat, a: nat): VideoStats
    requires k < |env.cands|
  {
    var cand := env.cands[k];
    VideoStats(cand.title.GetOr(DefaultTitle), env.extracted(k, a).0, CsvPath(IdOf(env, k)),
               cand.uploadDate.GetOr(DefaultUploadDate))
  }

  /** The statuses `Outcome` can give: an attempt between `a` and 3, or the failure. */
  lemma {:induction false} OutcomeRange(env: Inputs, k: nat, a: nat)
    requires 1 <= a
    ensures var s := Outcome(env, k, a);
      && !s.SkippedNoUrl? && !s.SkippedAlreadyScraped?
      && ((s.NoComments? || s.Processed?) ==> a <= s.attempt <= 3)
    decreases 4 - a
  {
    if a <= 3 && env.extracted(k, a).1 != [] && !env.write(k, a).WriteOk? {
      OutcomeRange(env, k, a + 1);
    }
  }

  /** The retry rules, both ways: a video is processed at attempt `b`
      exactly when that attempt finds comments and writes them completely
      and every earlier one found comments but broke off its write; it is
      found empty at `b` exactly when `b` finds none after such failures;
      and it is given up exactly when all of attempts `a` to 3 broke off. */
  lemma {:induction false} OutcomeCases(env: Inputs, k: nat, a: nat, b: nat)
    requires 1 <= a
    ensures Outcome(env, k, a) == Processed(b) <==>
      && a <= b <= 3 && env.extracted(k, b).1 != [] && env.write(k, b).WriteOk?
      && (forall j :: a <= j < b ==> env.extracted(k, j).1 != [] && !env.write(k, j).WriteOk?)
    ensures Outcome(env, k, a) == NoComments(b) <==>
      && a <= b <= 3 && env.extracted(k, b).1 == []
      && (forall j :: a <= j < b ==> env.extracted(k, j).1 != [] && !env.write(k, j).WriteOk?)
    ensures Outcome(env, k, a) == FailedAfterRetries <==>
      forall j :: a <= j <= 3 ==> env.extracted(k, j).1 != [] && !env.write(k, j).WriteOk?
    decreases 4 - a
  {
    if a <= 3 {
      OutcomeCases(env, k, a + 1, b);
      OutcomeRange(env, k, a);
    }
  }

  /** `2 + 4 + … + 2 ** n == 2 ** (n + 1) - 2`; three failures sleep 14. */
  lemma {:induction false} BackoffClosedForm(n: nat)
    ensures Backoff(n) + 2 == Pow2(n + 1)
  {
    if n > 0 {
      BackoffClosedForm(n - 1);
    }
  }

  lemma ThreeFailuresSleepFourteen()
    ensures StatusDelay(FailedAfterRetries) == 14
  {
    BackoffClosedForm(3);
  }

  /** The library is asked exactly for attempts `lo` to `hi`, in order. */
  lemma {:induction false} AttemptRangeSpec(k: nat, lo: nat, hi: nat)
    ensures |AttemptRange(k, lo, hi)| == if hi < lo then 0 else hi - lo + 1
    ensures forall j :: 0 <= j < |AttemptRange(k, lo, hi)| ==> AttemptRange(k, lo, hi)[j] == (k, lo + j)
    decreases hi - lo
  {
    if lo <= hi {
      AttemptRangeSpec(k, lo + 1, hi);
    }
  }

  // ---------------------------------------------------------------------
  // The loop, one candidate at a time

  /** The state once the examination of candidate `c.i` is over. */
  function Finish(env: Inputs, c: Config): RunState
    requires Wf(env, c) && c.i < |env.cands|
    decreases Measure(c.pc)
  {
    var n := Next(env, c);
    if n.i == c.i then Finish(env, n) else n.st
  }

  /** Running from a configuration inside candidate `c.i` (or before it,
      when the stop test does not hold) means finishing that candidate and
      running on from the next one. */
  lemma {:induction false} RunByCandidate(env: Inputs, c: Config)
    requires Wf(env, c) && c.i < |env.cands|
    requires c.pc.AtVideo? ==> c.st.processed < env.numVideos
    ensures Run(env, c) == Run(env, Config(Finish(env, c), c.i + 1, AtVideo))
    decreases Measure(c.pc)
  {
    RunNext(env, c);
    var n := Next(env, c);
    if n.i == c.i {
      RunByCandidate(env, n);
    }
  }

  /** The attempts from `c.pc.attempt` on end the candidate with status `Outcome`, and count it as processed exactly when that is `Processed`. */
  lemma {:induction false} AttemptStatus(env: Inputs, c: Config)
    requires Wf(env, c) && c.pc.AtAttempt?
    ensures var r := Finish(env, c);
      var s := Outcome(env, c.i, c.pc.attempt);
      && r.statuses == c.st.statuses + [s]
      && r.processed == c.st.processed + (if s.Processed? then 1 else 0)
      && r.videoCount == c.st.videoCount
    decreases 4 - c.pc.attempt
  {
    var a := c.pc.attempt;
    if env.extracted(c.i, a).1 != [] && !env.write(c.i, a).WriteOk? && a < 3 {
      var n := WriteFailed(env, c);
      assert Next(env, c) == n;
      AttemptStatus(env, n);
    }
  }

  /** The attempts from `c.pc.attempt` on sleep once per broken write. */
  lemma {:induction false} AttemptDelay(env: Inputs, c: Config)
    requires Wf(env, c) && c.pc.AtAttempt?
    ensures var r := Finish(env, c);
      var s := Outcome(env, c.i, c.pc.attempt);
      r.delay + Backoff(c.pc.attempt - 1) == c.st.delay + StatusDelay(s)
    decreases 4 - c.pc.attempt
  {
    var a := c.pc.attempt;
    if env.extracted(c.i, a).1 != [] && !env.write(c.i, a).WriteOk? && a < 3 {
      var n := WriteFailed(env, c);
      assert Next(env, c) == n;
      AttemptDelay(env, n);
    }
  }

  /** The attempts from `c.pc.attempt` on ask the library once each, up to the one that ends the candidate. */
  lemma {:induction false} AttemptFetched(env: Inputs, c: Config)
    requires Wf(env, c) && c.pc.AtAttempt?
    ensures var r := Finish(env, c);
      var s := Outcome(env, c.i, c.pc.attempt);
      r.fetched == c.st.fetched + AttemptRange(c.i, c.pc.attempt, AttemptsUsed(s))
    decreases 4 - c.pc.attempt
  {
    var a := c.pc.attempt;
    if env.extracted(c.i, a).1 != [] && !env.write(c.i, a).WriteOk? && a < 3 {
      var n := WriteFailed(env, c);
      assert Next(env, c) == n;
      AttemptFetched(env, n);
      OutcomeRange(env, c.i, a + 1);
    }
  }

  /** The attempts from `c.pc.attempt` on add the analytics entry and the CSV path exactly when the candidate is processed, and reach the ledger when the id is saved and the save does not fail. */
  lemma {:induction false} AttemptRecords(env: Inputs, c: Config)
    requires Wf(env, c) && c.pc.AtAttempt?
    ensures var r := Finish(env, c);
      var s := Outcome(env, c.i, c.pc.attempt);
      && r.csvPaths == c.st.csvPaths + (if s.Processed? then [CsvPath(c.pc.id)] else [])
      && r.analytics == (if s.Processed? then PyDict.Put(c.st.analytics, c.pc.url, StatsOf(env, c.i, s.attempt))
                         else c.st.analytics)
      && r.ledgerAdds == c.st.ledgerAdds + (if Saves(s) && env.saveFault(c.i) == NoFault then {c.pc.id} else {})
    decreases 4 - c.pc.attempt
  {
    var a := c.pc.attempt;
    if env.extracted(c.i, a).1 != [] && !env.write(c.i, a).WriteOk? && a < 3 {
      var n := WriteFailed(env, c);
      assert Next(env, c) == n;
      AttemptRecords(env, n);
    }
  }

  /** What examining candidate `k` changes, in terms of `StatusOf`. */
  lemma FinishEffect(env: Inputs, st: RunState, k: nat)
    requires k < |env.cands|
    ensures var r := Finish(env, Config(st, k, AtVideo));
      var s := StatusOf(env, k);
      && r.statuses == st.statuses + [s]
      && r.processed == st.processed + (if s.Processed? then 1 else 0)
      && r.videoCount == st.videoCount + (if HasUrl(env.cands[k]) then 1 else 0)
      && r.delay == st.delay + StatusDelay(s)
      && r.fetched == st.fetched + AttemptRange(k, 1, AttemptsUsed(s))
      && r.csvPaths == st.csvPaths + (if s.Processed? then [CsvPath(IdOf(env, k))] else [])
      && r.analytics == (if s.Processed? then PyDict.Put(st.analytics, UrlOf(env, k), StatsOf(env, k, s.attempt))
                         else st.analytics)
      && r.ledgerAdds == st.ledgerAdds + (if Saves(s) && env.saveFault(k) == NoFault then {IdOf(env, k)} else {})
  {
    var c := Config(st, k, AtVideo);
    var n := Next(env, c);
    if n.i == k {
      AttemptStatus(env, n);
      AttemptDelay(env, n);
      AttemptFetched(env, n);
      AttemptRecords(env, n);
    }
  }

  /** The state after examining candidates `0` to `i - 1`, with no stop test. */
  function Before(env: Inputs, i: nat): RunState
    requires i <= |env.cands|
  {
    if i == 0 then InitialState() else Finish(env, Config(Before(env, i - 1), i - 1, AtVideo))
  }

  /** The first candidate, from `i` on, at which the loop stops. */
  /** The candidate loop ends before candidate `i`. */
  predicate Stops(env: Inputs, i: nat)
    requires i <= |env.cands|
  {
    i == |env.cands| || Before(env, i).processed >= env.numVideos
  }

  function StopFrom(env: Inputs, i: nat): (s: nat)
    requires i <= |env.cands|
    ensures i <= s <= |env.cands|
    decreases |env.cands| - i
  {
    if Stops(env, i) then i else StopFrom(env, i + 1)
  }

  lemma {:induction false} RunFromBefore(env: Inputs, i: nat)
    requires i <= |env.cands|
    ensures Run(env, Config(Before(env, i), i, AtVideo)) == Before(env, StopFrom(env, i))
    decreases |env.cands| - i
  {
    var c := Config(Before(env, i), i, AtVideo);
    if !Done(env, c) {
      RunByCandidate(env, c);
      assert Finish(env, c) == Before(env, i + 1);
      RunFromBefore(env, i + 1);
    }
  }

  /** The loop ends in the state reached by examining every candidate before the stop index. */
  lemma RunIsBefore(env: Inputs)
    ensures Run(env, Start()) == Before(env, StopFrom(env, 0))
  {
    RunFromBefore(env, 0);
  }

  /** The stop index is the first candidate at which `processed_count`
      has reached the request, or the end of the list. */
  lemma {:induction false} StopFromSpec(env: Inputs, i: nat)
    requires i <= |env.cands|
    ensures var s := StopFrom(env, i);
      && i <= s <= |env.cands|
      && (s == |env.cands| || Before(env, s).processed >= env.numVideos)
      && (forall j :: i <= j < s ==> Before(env, j).processed < env.numVideos)
    decreases |env.cands| - i
  {
    if !Stops(env, i) {
      StopFromSpec(env, i + 1);
    }
  }

  // ---------------------------------------------------------------------
  // What the first `i` candidates accumulate

  function ProcessedUpTo(env: Inputs, i: nat): nat
    requires i <= |env.cands|
  {
    if i == 0 then 0 else ProcessedUpTo(env, i - 1) + (if StatusOf(env, i - 1).Processed? then 1 else 0)
  }

  function UrlCountUpTo(env: Inputs, i: nat): nat
    requires i <= |env.cands|
  {
    if i == 0 then 0 else UrlCountUpTo(env, i - 1) + (if HasUrl(env.cands[i - 1]) then 1 else 0)
  }

  function DelayUpTo(env: Inputs, i: nat): nat
    requires i <= |env.cands|
  {
    if i == 0 then 0 else DelayUpTo(env, i - 1) + StatusDelay(StatusOf(env, i - 1))
  }

  function FetchesUpTo(env: Inputs, i: nat): seq<(nat, nat)>
    requires i <= |env.cands|
  {
    if i == 0 then [] else FetchesUpTo(env, i - 1) + AttemptRange(i - 1, 1, AttemptsUsed(StatusOf(env, i - 1)))
  }

  function PathsUpTo(env: Inputs, i: nat): seq<string>
    requires i <= |env.cands|
  {
    if i == 0 then []
    else PathsUpTo(env, i - 1) + (if StatusOf(env, i - 1).Processed? then [CsvPath(IdOf(env, i - 1))] else [])
  }

  function SavedUpTo(env: Inputs, i: nat): set<string>
    requires i <= |env.cands|
  {
    if i == 0 then {}
    else
      var s := StatusOf(env, i - 1);
      SavedUpTo(env, i - 1) + (if Saves(s) && env.saveFault(i - 1) == NoFault then {IdOf(env, i - 1)} else {})
  }

  function AnalyticsUpTo(env: Inputs, i: nat): Analytics
    requires i <= |env.cands|
  {
    if i == 0 then PyDict.Empty()
    else
      var prev := AnalyticsUpTo(env, i - 1);
      var s := StatusOf(env, i - 1);
      if s.Processed? then PyDict.Put(prev, UrlOf(env, i - 1), StatsOf(env, i - 1, s.attempt)) else prev
  }

  /** After the first `i` candidates the run holds one status per candidate, the one `StatusOf` gives. */
  lemma {:induction false} BeforeStatuses(env: Inputs, i: nat)
    requires i <= |env.cands|
    ensures |Before(env, i).statuses| == i
    ensures forall k :: 0 <= k < i ==> Before(env, i).statuses[k] == StatusOf(env, k)
  {
    if i > 0 {
      BeforeStatuses(env, i - 1);
      FinishEffect(env, Before(env, i - 1), i - 1);
    }
  }

  /** After the first `i` candidates the run's counters and fetches are the accumulated ones. */
  lemma {:induction false} BeforeTrace(env: Inputs, i: nat)
    requires i <= |env.cands|
    ensures var st := Before(env, i);
      && st.processed == ProcessedUpTo(env, i)
      && st.videoCount == UrlCountUpTo(env, i)
      && st.delay == DelayUpTo(env, i)
      && st.fetched == FetchesUpTo(env, i)
  {
    if i > 0 {
      BeforeTrace(env, i - 1);
      FinishEffect(env, Before(env, i - 1), i - 1);
    }
  }

  /** After the first `i` candidates the analytics, the CSV paths and the
      ledger additions are the accumulated ones. */
  lemma {:induction false} BeforeRecords(env: Inputs, i: nat)
    requires i <= |env.cands|
    ensures var st := Before(env, i);
      && st.csvPaths == PathsUpTo(env, i)
      && st.analytics == AnalyticsUpTo(env, i)
      && st.ledgerAdds == SavedUpTo(env, i)
  {
    if i > 0 {
      BeforeRecords(env, i - 1);
      FinishEffect(env, Before(env, i - 1), i - 1);
    }
  }

  /** Only candidates with a URL whose id is not in the snapshot are attempted. */
  lemma StatusOfAttempted(env: Inputs, k: nat)
    requires k < |env.cands|
    ensures var s := StatusOf(env, k);
      && (s == SkippedNoUrl <==> !HasUrl(env.cands[k]))
      && (s == SkippedAlreadyScraped <==> HasUrl(env.cands[k]) && IdOf(env, k) in env.snapshot)
      && (AttemptsUsed(s) > 0 <==> HasUrl(env.cands[k]) && IdOf(env, k) !in env.snapshot)
      && AttemptsUsed(s) <= 3
      && ((s.NoComments? || s.Processed?) ==> 1 <= s.attempt <= 3)
  {
    OutcomeRange(env, k, 1);
  }

  /** Each first-`i` candidate adds at most one processed video and one CSV path, in step. */
  lemma {:induction false} PathsMatchProcessed(env: Inputs, i: nat)
    requires i <= |env.cands|
    ensures |PathsUpTo(env, i)| == ProcessedUpTo(env, i) <= i
    ensures UrlCountUpTo(env, i) <= i
  {
    if i > 0 {
      PathsMatchProcessed(env, i - 1);
    }
  }

  /** A candidate sleeps at most `2 + 4 + 8` seconds. */
  lemma StatusDelayBound(env: Inputs, k: nat)
    requires k < |env.cands|
    ensures StatusDelay(StatusOf(env, k)) <= 14
  {
    StatusOfAttempted(env, k);
    BackoffClosedForm(3);
    BackoffClosedForm(2);
    BackoffClosedForm(1);
  }

  lemma {:induction false} DelayBound(env: Inputs, i: nat)
    requires i <= |env.cands|
    ensures DelayUpTo(env, i) <= 14 * i
  {
    if i > 0 {
      DelayBound(env, i - 1);
      StatusDelayBound(env, i - 1);
    }
  }

  /** Every fetch is an attempt from 1 to 3 at an examined candidate that
      has a URL and whose id is not in the snapshot; candidates are fetched
      at most three times each, in order. */
  lemma {:induction false} FetchesSpec(env: Inputs, i: nat)
    requires i <= |env.cands|
    ensures var f := FetchesUpTo(env, i);
      && |f| <= 3 * i
      && forall j :: 0 <= j < |f| ==>
           && f[j].0 < i && 1 <= f[j].1 <= AttemptsUsed(StatusOf(env, f[j].0)) <= 3
           && HasUrl(env.cands[f[j].0]) && IdOf(env, f[j].0) !in env.snapshot
  {
    if i > 0 {
      FetchesSpec(env, i - 1);
      var prev := FetchesUpTo(env, i - 1);
      var used := AttemptsUsed(StatusOf(env, i - 1));
      AttemptRangeSpec(i - 1, 1, used);
      StatusOfAttempted(env, i - 1);
      var f := FetchesUpTo(env, i);
      assert f == prev + AttemptRange(i - 1, 1, used);
      forall j | 0 <= j < |f|
        ensures && f[j].0 < i && 1 <= f[j].1 <= AttemptsUsed(StatusOf(env, f[j].0)) <= 3
                && HasUrl(env.cands[f[j].0]) && IdOf(env, f[j].0) !in env.snapshot
      {
        if j < |prev| {
          assert f[j] == prev[j];
        } else {
          assert f[j] == AttemptRange(i - 1, 1, used)[j - |prev|];
        }
      }
    }
  }

  /** The ledger gains exactly the ids of the examined candidates that were
      found empty or processed and whose save did not fail. */
  lemma {:induction false} SavedSpec(env: Inputs, i: nat, x: string)
    requires i <= |env.cands|
    ensures x in SavedUpTo(env, i) <==>
      exists k :: 0 <= k < i && Saves(StatusOf(env, k)) && env.saveFault(k) == NoFault && IdOf(env, k) == x
  {
    if i > 0 {
      SavedSpec(env, i - 1, x);
      if x in SavedUpTo(env, i) && x !in SavedUpTo(env, i - 1) {
        assert Saves(StatusOf(env, i - 1)) && env.saveFault(i - 1) == NoFault && IdOf(env, i - 1) == x;
      }
    }
  }

  /** No id in the snapshot is saved again. */
  lemma SavedNotInSnapshot(env: Inputs, i: nat)
    requires i <= |env.cands|
    ensures SavedUpTo(env, i) !! env.snapshot
  {
    forall x | x in SavedUpTo(env, i)
      ensures x !in env.snapshot
    {
      SavedSpec(env, i, x);
      var k :| 0 <= k < i && Saves(StatusOf(env, k)) && env.saveFault(k) == NoFault && IdOf(env, k) == x;
      StatusOfAttempted(env, k);
    }
  }

  /** The analytics dict stays well formed, has at most one key per
      processed video, and is empty exactly when nothing was processed. */
  lemma {:induction false} AnalyticsShape(env: Inputs, i: nat)
    requires i <= |env.cands|
    ensures var d := AnalyticsUpTo(env, i);
      && d.Valid()
      && d.Len() <= ProcessedUpTo(env, i)
      && (d.Len() == 0 <==> ProcessedUpTo(env, i) == 0)
  {
    if i > 0 {
      AnalyticsShape(env, i - 1);
      var prev := AnalyticsUpTo(env, i - 1);
      var s := StatusOf(env, i - 1);
      if s.Processed? {
        var u := UrlOf(env, i - 1);
        PyDict.PutKeepsValid(prev, u, StatsOf(env, i - 1, s.attempt));
        if u in prev.vals {
          assert u in set k | k in prev.keys;
        }
      }
    }
  }

  /** Every processed candidate's URL is an analytics key. */
  lemma {:induction false} AnalyticsHasProcessed(env: Inputs, i: nat, k: nat)
    requires k < i <= |env.cands| && StatusOf(env, k).Processed?
    ensures UrlOf(env, k) in AnalyticsUpTo(env, i).vals
  {
    if k < i - 1 {
      AnalyticsHasProcessed(env, i - 1, k);
    }
  }

  /** Every analytics key is the URL of a processed candidate, and its entry
      is the one such a candidate recorded. */
  lemma {:induction false} AnalyticsEntryOrigin(env: Inputs, i: nat, u: string)
    requires i <= |env.cands| && u in AnalyticsUpTo(env, i).vals
    ensures exists k :: 0 <= k < i && StatusOf(env, k).Processed? && UrlOf(env, k) == u
                        && AnalyticsUpTo(env, i).vals[u] == StatsOf(env, k, StatusOf(env, k).attempt)
  {
    var prev := AnalyticsUpTo(env, i - 1);
    var s := StatusOf(env, i - 1);
    if s.Processed? && u == UrlOf(env, i - 1) {
      assert AnalyticsUpTo(env, i).vals[u] == StatsOf(env, i - 1, s.attempt);
    } else {
      assert u in prev.vals && AnalyticsUpTo(env, i).vals[u] == prev.vals[u];
      AnalyticsEntryOrigin(env, i - 1, u);
    }
  }

  // ---------------------------------------------------------------------
  // Per-video CSV files

  /** The last of attempts `lo` to `hi` at candidate `k` whose write got
      past `open`, if any: the one whose partial file stays at the path
      when no later attempt rewrites it. */
  function LastWrite(env: Inputs, k: nat, lo: nat, hi: int): (r: Option<nat>)
    ensures r.Some? ==> lo <= r.value <= hi && env.write(k, r.value).WriteFails?
    ensures r.Some? ==> forall j :: r.value < j <= hi ==> !env.write(k, j).WriteFails?
    ensures r.None? ==> forall j :: lo <= j <= hi ==> !env.write(k, j).WriteFails?
    decreases hi + 1 - lo
  {
    if hi < lo then None
    else
      var later := LastWrite(env, k, lo + 1, hi);
      if later.Some? then later
      else if env.write(k, lo).WriteFails? then Some(lo)
      else None
  }

  /** What attempts `lo` to `hi`, none of which completed its write, leave
      at `path`: the partial file of the last one whose write got past
      `open`, or, when every `open` raised, what `before` held there. */
  ghost predicate LeftByFailures(env: Inputs, k: nat, lo: nat, hi: int, path: string,
                                 before: map<string, seq<CsvLine>>, after: map<string, seq<CsvLine>>) {
    match LastWrite(env, k, lo, hi)
    case Some(j) => path in after && after[path] == Written(CsvLines(env.extracted(k, j).1), env.write(k, j).linesWritten)
    case None => (path in after <==> path in before) && (path in after ==> after[path] == before[path])
  }

  /** What the attempts from `c.pc.attempt` on leave in the files: only the
      candidate's own CSV path is written; a processed candidate's file holds
      every line; one found empty at once is untouched. */
  lemma {:induction false} AttemptFiles(env: Inputs, c: Config)
    requires Wf(env, c) && c.pc.AtAttempt?
    ensures var r := Finish(env, c).files;
      var s := Outcome(env, c.i, c.pc.attempt);
      var path := CsvPath(c.pc.id);
      && (forall p :: p != path ==> (p in r <==> p in c.st.files) && (p in r ==> r[p] == c.st.files[p]))
      && (s.Processed? ==> path in r && r[path] == CsvLines(env.extracted(c.i, s.attempt).1))
      && (s == NoComments(c.pc.attempt) ==> r == c.st.files)
      && c.st.files.Keys <= r.Keys
    decreases 4 - c.pc.attempt
  {
    var a := c.pc.attempt;
    if env.extracted(c.i, a).1 != [] && !env.write(c.i, a).WriteOk? && a < 3 {
      var n := WriteFailed(env, c);
      assert Next(env, c) == n;
      AttemptFiles(env, n);
    }
  }

  /** A video given up after three failures holds at its CSV path what the
      last write that got past `open` left, and is untouched there when
      every `open` raised. */
  lemma {:induction false} GivenUpFiles(env: Inputs, c: Config)
    requires Wf(env, c) && c.pc.AtAttempt?
    ensures var s := Outcome(env, c.i, c.pc.attempt);
      s.FailedAfterRetries? ==> LeftByFailures(env, c.i, c.pc.attempt, 3, CsvPath(c.pc.id), c.st.files, Finish(env, c).files)
    decreases 4 - c.pc.attempt
  {
    var a := c.pc.attempt;
    if env.extracted(c.i, a).1 != [] && !env.write(c.i, a).WriteOk? && a < 3 {
      var n := WriteFailed(env, c);
      assert Next(env, c) == n;
      GivenUpFiles(env, n);
    }
  }

  /** A video found empty at attempt `b` after failed writes holds at its
      CSV path what the last of attempts before `b` whose write got past
      `open` left, and is untouched there when every `open` raised. */
  lemma {:induction false} EmptyAfterFailuresFiles(env: Inputs, c: Config)
    requires Wf(env, c) && c.pc.AtAttempt?
    ensures var s := Outcome(env, c.i, c.pc.attempt);
      s.NoComments? ==> LeftByFailures(env, c.i, c.pc.attempt, s.attempt - 1, CsvPath(c.pc.id), c.st.files, Finish(env, c).files)
    decreases 4 - c.pc.attempt
  {
    var a := c.pc.attempt;
    if env.extracted(c.i, a).1 != [] && !env.write(c.i, a).WriteOk? && a < 3 {
      var n := WriteFailed(env, c);
      assert Next(env, c) == n;
      EmptyAfterFailuresFiles(env, n);
    }
  }

  /** What examining candidate `k` leaves in the files. */
  lemma FinishFiles(env: Inputs, st: RunState, k: nat)
    requires k < |env.cands|
    ensures var r := Finish(env, Config(st, k, AtVideo)).files;
      var s := StatusOf(env, k);
      var path := CsvPath(IdOf(env, k));
      && (AttemptsUsed(s) == 0 ==> r == st.files)
      && st.files.Keys <= r.Keys
      && (forall p :: p != path ==> (p in r <==> p in st.files) && (p in r ==> r[p] == st.files[p]))
      && (s.Processed? ==> path in r && r[path] == CsvLines(env.extracted(k, s.attempt).1))
      && (s.FailedAfterRetries? ==> LeftByFailures(env, k, 1, 3, path, st.files, r))
      && (s.NoComments? ==> LeftByFailures(env, k, 1, s.attempt - 1, path, st.files, r))
  {
    var c := Config(st, k, AtVideo);
    var n := Next(env, c);
    if n.i == k {
      AttemptFiles(env, n);
      GivenUpFiles(env, n);
      EmptyAfterFailuresFiles(env, n);
    }
  }

  /** A path no candidate from `j` to `i - 1` attempts is left as it was. */
  lemma {:induction false} FilesFrame(env: Inputs, j: nat, i: nat, p: string)
    requires j <= i <= |env.cands|
    requires forall k :: j <= k < i && AttemptsUsed(StatusOf(env, k)) > 0 ==> CsvPath(IdOf(env, k)) != p
    ensures p in Before(env, i).files <==> p in Before(env, j).files
    ensures p in Before(env, j).files ==> Before(env, i).files[p] == Before(env, j).files[p]
  {
    if j < i {
      FilesFrame(env, j, i - 1, p);
      FinishFiles(env, Before(env, i - 1), i - 1);
    }
  }

  /** Files are only ever added or rewritten, never removed. */
  lemma {:induction false} FilesGrow(env: Inputs, j: nat, i: nat)
    requires j <= i <= |env.cands|
    ensures Before(env, j).files.Keys <= Before(env, i).files.Keys
  {
    if j < i {
      FilesGrow(env, j, i - 1);
      FinishFiles(env, Before(env, i - 1), i - 1);
    }
  }

  /** The CSV path the run reports is a file the run wrote. */
  lemma ReportedPathWritten(env: Inputs, i: nat)
    requires i <= |env.cands|
    ensures var rep := ReportOf(Before(env, i));
      rep.analytics.Len() > 0 ==> rep.csvPath in Before(env, i).files
  {
    ReportSpec(env, i);
    if LastProcessed(env, i).Some? {
      var k := LastProcessed(env, i).value;
      LastProcessedSpec(env, i);
      ProcessedPathWritten(env, k);
      FilesGrow(env, k + 1, i);
    }
  }

  /** A processed candidate's CSV is among the files once it is done. */
  lemma ProcessedPathWritten(env: Inputs, k: nat)
    requires k < |env.cands| && StatusOf(env, k).Processed?
    ensures CsvPath(IdOf(env, k)) in Before(env, k + 1).files
  {
    FinishFiles(env, Before(env, k), k);
  }

  /** A processed video's CSV holds its header and every comment line, as
      long as no later candidate writes to the same path. */
  lemma ProcessedFileComplete(env: Inputs, k: nat, i: nat)
    requires k < i <= |env.cands| && StatusOf(env, k).Processed?
    requires forall k' :: k < k' < i && AttemptsUsed(StatusOf(env, k')) > 0 ==> CsvPath(IdOf(env, k')) != CsvPath(IdOf(env, k))
    ensures CsvPath(IdOf(env, k)) in Before(env, i).files
    ensures Before(env, i).files[CsvPath(IdOf(env, k))] == CsvLines(env.extracted(k, StatusOf(env, k).attempt).1)
  {
    FinishFiles(env, Before(env, k), k);
    FilesFrame(env, k + 1, i, CsvPath(IdOf(env, k)));
  }

  // ---------------------------------------------------------------------
  // The stop test and the returned pair

  /** The loop stops at the first candidate where `processed_count` has
      reached the request: no more than `num_videos` videos are processed,
      exactly that many unless the candidates ran out, and every candidate
      before the stop was examined with fewer processed. */
  lemma StopSpec(env: Inputs)
    ensures var s := StopFrom(env, 0);
      var cap := if env.numVideos <= 0 then 0 else env.numVideos;
      && ProcessedUpTo(env, s) <= cap
      && (s < |env.cands| ==> ProcessedUpTo(env, s) == cap)
      && (forall j :: 0 <= j < s ==> ProcessedUpTo(env, j) < env.numVideos)
  {
    var s := StopFrom(env, 0);
    StopFromSpec(env, 0);
    BeforeTrace(env, s);
    forall j | 0 <= j < s
      ensures ProcessedUpTo(env, j) < env.numVideos
    {
      BeforeTrace(env, j);
    }
    if s > 0 {
      assert ProcessedUpTo(env, s - 1) < env.numVideos;
    }
  }

  /** The last processed candidate among the first `i`. */
  function LastProcessed(env: Inputs, i: nat): (r: Option<nat>)
    requires i <= |env.cands|
    ensures r.Some? ==> r.value < i
  {
    if i == 0 then None
    else if StatusOf(env, i - 1).Processed? then Some(i - 1)
    else LastProcessed(env, i - 1)
  }

  /** There is a last processed candidate exactly when one was processed;
      the last CSV path is its path. */
  lemma {:induction false} LastProcessedSpec(env: Inputs, i: nat)
    requires i <= |env.cands|
    ensures LastProcessed(env, i).None? <==> ProcessedUpTo(env, i) == 0
    ensures LastProcessed(env, i).Some? ==>
      var k := LastProcessed(env, i).value;
      && k < i && StatusOf(env, k).Processed?
      && (forall k' :: k < k' < i ==> !StatusOf(env, k').Processed?)
      && PathsUpTo(env, i) != [] && PathsUpTo(env, i)[|PathsUpTo(env, i)| - 1] == CsvPath(IdOf(env, k))
  {
    if i > 0 {
      LastProcessedSpec(env, i - 1);
    }
  }

  /** The pair returned after the first `i` candidates: `({}, "")` when
      nothing was processed, otherwise the analytics and the CSV path of
      the last processed candidate. */
  lemma ReportSpec(env: Inputs, i: nat)
    requires i <= |env.cands|
    ensures var rep := ReportOf(Before(env, i));
      && (LastProcessed(env, i).None? ==> rep == Report(PyDict.Empty(), ""))
      && (LastProcessed(env, i).Some? ==>
            rep.analytics == AnalyticsUpTo(env, i) && rep.analytics.Len() > 0
            && rep.csvPath == CsvPath(IdOf(env, LastProcessed(env, i).value)))
  {
    BeforeRecords(env, i);
    AnalyticsShape(env, i);
    LastProcessedSpec(env, i);
    PathsMatchProcessed(env, i);
  }

  // ---------------------------------------------------------------------
  // The whole run

  /** An empty listing raises before anything is fetched or saved; otherwise
      the run is the candidate-by-candidate one, stopped at `StopFrom`. */
  lemma ChannelRunSpec(snapshot: set<string>, channelUrl: string, numVideos: int,
                       listInfo: (string, int) -> ChannelInfo, fetch: (nat, nat) -> FetchResult,
                       write: (nat, nat) -> WriteOutcome, saveFault: nat -> SaveFault)
    ensures var videos := Listing(channelUrl, numVideos, listInfo);
      var env := RunInputs(videos, numVideos, snapshot, fetch, write, saveFault);
      var run := ChannelRun(snapshot, channelUrl, numVideos, listInfo, fetch, write, saveFault);
      && (run.0.Err? <==> videos == [])
      && (videos == [] ==> run.0 == Err(NoVideosFound) && run.1.fetched == [] && run.1.ledgerAdds == {} && run.1.files == map[])
      && (videos != [] ==> run.1 == Before(env, StopFrom(env, 0)) && run.0 == Ok(ReportOf(run.1)))
  {
    var videos := Listing(channelUrl, numVideos, listInfo);
    if videos != [] {
      RunIsBefore(RunInputs(videos, numVideos, snapshot, fetch, write, saveFault));
    }
  }

  /** In the world the orchestrator sees, every analytics entry of a run
      is keyed by a URL whose id was not in the snapshot, points at that
      id's CSV and counts at least one comment. */
  lemma EntriesOfRun(videos: seq<VideoRef>, numVideos: int, snapshot: set<string>, fetch: (nat, nat) -> FetchResult,
                     write: (nat, nat) -> WriteOutcome, saveFault: nat -> SaveFault, i: nat, u: string)
    requires var env := RunInputs(videos, numVideos, snapshot, fetch, write, saveFault);
      i <= |env.cands| && u in AnalyticsUpTo(env, i).vals
    ensures var env := RunInputs(videos, numVideos, snapshot, fetch, write, saveFault);
      var e := AnalyticsUpTo(env, i).vals[u];
      && VideoId(u) !in snapshot && e.csvPath == CsvPath(VideoId(u)) && e.totalComments >= 1
  {
    var env := RunInputs(videos, numVideos, snapshot, fetch, write, saveFault);
    AnalyticsEntryOrigin(env, i, u);
    var k :| 0 <= k < i && StatusOf(env, k).Processed? && UrlOf(env, k) == u
             && AnalyticsUpTo(env, i).vals[u] == StatsOf(env, k, StatusOf(env, k).attempt);
    var a := StatusOf(env, k).attempt;
    StatusOfAttempted(env, k);
    OutcomeCases(env, k, 1, a);
    assert env.extracted(k, a) == ExtractCommentsSpec(fetch(k, a));
  }
}
