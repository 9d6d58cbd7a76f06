/** Listing a channel's videos (`get_videos_from_channel`): the channel URL
    is pointed at its videos tab, the extraction library is asked for a
    flat playlist, and its entries are shaped into `{title, url,
    upload_date}` records. The library call is the parameter `extractInfo`. */
module VideoList {
  import opened Wrappers
  import opened Text

  const VideosTab := "/videos"
  const WatchUrlPrefix := "https://youtube.com/watch?v="
  const DefaultTitle := "Untitled"

  /** One element of the library's `entries`: `None`, or a dict whose keys
      `id`, `title` and `upload_date` may each be absent. */
  datatype RawEntry = NullEntry | Entry(id: Option<string>, title: Option<string>, uploadDate: Option<string>)

  /** What the library's `extract_info` does: raise, return nothing, or
      return an info dict that may lack the `entries` key. */
  datatype ChannelInfo = InfoRaises | NoInfo | Info(entries: Option<seq<RawEntry>>)

  /** The record handed to the orchestrator. */
  datatype VideoRef = VideoRef(title: string, url: string, uploadDate: string)

  /** The URL the library is asked for: it always ends with the videos tab;
      one that already does is kept, otherwise its trailing slashes are
      dropped before the tab is appended. */
  function NormalizeChannelUrl(u: string): (r: string)
    ensures EndsWith(r, VideosTab)
    ensures EndsWith(u, VideosTab) ==> r == u
    ensures !EndsWith(u, VideosTab) ==> r == RStrip(u, '/') + VideosTab
  {
    if EndsWith(u, VideosTab) then u else RStrip(u, '/') + VideosTab
  }

  /** Normalising twice is normalising once. */
  lemma NormalizeIdempotent(u: string)
    ensures NormalizeChannelUrl(NormalizeChannelUrl(u)) == NormalizeChannelUrl(u)
  {
  }

  /** `entry.get('id')` is truthy. */
  predicate HasId(e: RawEntry) {
    e.Entry? && e.id.Some? && e.id.value != ""
  }

  function ToVideoRef(e: RawEntry): (v: VideoRef)
    requires HasId(e)
    ensures v.url == WatchUrlPrefix + e.id.value
    ensures v.title == e.title.GetOr(DefaultTitle) && v.uploadDate == e.uploadDate.GetOr("")
  {
    VideoRef(e.title.GetOr(DefaultTitle), WatchUrlPrefix + e.id.value, e.uploadDate.GetOr(""))
  }

  /** The shaping loop over the considered entries: `None` when it raises,
      which `entry.get` does on a `None` entry. */
  function MapEntries(es: seq<RawEntry>): (r: Option<seq<VideoRef>>)
    ensures r.None? <==> exists k :: 0 <= k < |es| && es[k].NullEntry?
    ensures r.Some? ==> |r.value| <= |es|
  {
    if es == [] then Some([])
    else
      var init := es[..|es| - 1];
      var e := es[|es| - 1];
      assert forall k :: 0 <= k < |init| ==> init[k] == es[k];
      var prev := MapEntries(init);
      if prev.None? || e.NullEntry? then None
      else if HasId(e) then Some(prev.value + [ToVideoRef(e)])
      else prev
  }

  /** Entries are shaped one by one, in order: the result for a
      concatenation is the concatenation of the results. */
  lemma {:induction false} MapEntriesAppend(a: seq<RawEntry>, b: seq<RawEntry>)
    requires MapEntries(a).Some? && MapEntries(b).Some?
    ensures MapEntries(a + b) == Some(MapEntries(a).value + MapEntries(b).value)
  {
    if b == [] {
      assert a + b == a;
      assert MapEntries(a).value + [] == MapEntries(a).value;
    } else {
      var b' := b[..|b| - 1];
      var e := b[|b| - 1];
      assert MapEntries(b').Some?;
      MapEntriesAppend(a, b');
      assert (a + b)[..|a + b| - 1] == a + b';
      assert (a + b)[|a + b| - 1] == e;
      var A, B' := MapEntries(a).value, MapEntries(b').value;
      if HasId(e) {
        assert MapEntries(b).value == B' + [ToVideoRef(e)];
        assert MapEntries(a + b).value == (A + B') + [ToVideoRef(e)];
        assert (A + B') + [ToVideoRef(e)] == A + (B' + [ToVideoRef(e)]);
      } else {
        assert MapEntries(b).value == B';
      }
    }
  }

  /** A single entry is dropped exactly when its `id` is missing or empty. */
  lemma MapEntriesSingle(e: RawEntry)
    requires !e.NullEntry?
    ensures MapEntries([e]) == Some(if HasId(e) then [ToVideoRef(e)] else [])
  {
    assert [e][..0] == [];
    if HasId(e) {
      assert [] + [ToVideoRef(e)] == [ToVideoRef(e)];
    }
  }

  /** Every listed video comes from one of the considered entries that has an `id`. */
  lemma {:induction false} MapEntriesFromEntry(es: seq<RawEntry>, v: VideoRef)
    requires MapEntries(es).Some? && v in MapEntries(es).value
    ensures exists k :: 0 <= k < |es| && HasId(es[k]) && v == ToVideoRef(es[k])
  {
    var init := es[..|es| - 1];
    var e := es[|es| - 1];
    assert MapEntries(init).Some?;
    if v in MapEntries(init).value {
      MapEntriesFromEntry(init, v);
      var k :| 0 <= k < |init| && HasId(init[k]) && v == ToVideoRef(init[k]);
      assert es[k] == init[k];
    } else {
      assert HasId(e) && v == ToVideoRef(e);
    }
  }

  /** Every considered entry that has an `id` is listed. */
  lemma {:induction false} MapEntriesEveryEntryListed(es: seq<RawEntry>, k: nat)
    requires MapEntries(es).Some? && k < |es| && HasId(es[k])
    ensures ToVideoRef(es[k]) in MapEntries(es).value
  {
    var init := es[..|es| - 1];
    assert MapEntries(init).Some?;
    if k < |es| - 1 {
      assert init[k] == es[k];
      MapEntriesEveryEntryListed(init, k);
      var e := es[|es| - 1];
      assert MapEntries(es).value == MapEntries(init).value + (if HasId(e) then [ToVideoRef(e)] else []);
    }
  }

  /** The result of `get_videos_from_channel` for what the library returned:
      only the first `numVideos` entries (a Python slice) are considered,
      and every failure yields the empty list. */
  function VideosFromInfo(info: ChannelInfo, numVideos: int): seq<VideoRef> {
    match info
    case InfoRaises => []
    case NoInfo => []
    case Info(None) => []
    case Info(Some(entries)) => MapEntries(PrefixSlice(entries, numVideos)).GetOr([])
  }

  /** At most `numVideos` (when non-negative) and at most as many videos as
      entries are listed; a failed or empty extraction lists none. */
  lemma VideosFromInfoBounds(info: ChannelInfo, numVideos: int)
    ensures !(info.Info? && info.entries.Some?) ==> VideosFromInfo(info, numVideos) == []
    ensures info.Info? && info.entries.Some? ==> |VideosFromInfo(info, numVideos)| <= |info.entries.value|
    ensures 0 <= numVideos ==> |VideosFromInfo(info, numVideos)| <= numVideos
  {
  }

  /** Every listed URL is the watch URL of a non-empty id. */
  lemma VideosFromInfoUrls(info: ChannelInfo, numVideos: int, v: VideoRef)
    requires v in VideosFromInfo(info, numVideos)
    ensures exists id :: id != "" && v.url == WatchUrlPrefix + id
  {
    var es := PrefixSlice(info.entries.value, numVideos);
    MapEntriesFromEntry(es, v);
    var k :| 0 <= k < |es| && HasId(es[k]) && v == ToVideoRef(es[k]);
    assert v.url == WatchUrlPrefix + es[k].id.value;
  }

  method GetVideosFromChannel(channelUrl: string, numVideos: int, extractInfo: (string, int) -> ChannelInfo)
    returns (videos: seq<VideoRef>)
    ensures videos == VideosFromInfo(extractInfo(NormalizeChannelUrl(channelUrl), numVideos), numVideos)
  {
    var url := channelUrl;
    if !EndsWith(url, VideosTab) {
      url := RStrip(url, '/') + VideosTab;
    }
    var info := extractInfo(url, numVideos);
    if !info.Info? || info.entries.None? {
      return [];
    }
    var window := PrefixSlice(info.entries.value, numVideos);
    videos := [];
    var i := 0;
    while i < |window|
      invariant 0 <= i <= |window|
      invariant MapEntries(window[..i]) == Some(videos)
    {
      var entry := window[i];
      assert window[..i + 1][..i] == window[..i];
      if entry.NullEntry? {
        assert MapEntries(window[..i + 1]).None?;
        MapEntriesRaises(window, i);
        return [];
      }
      if HasId(entry) {
        videos := videos + [ToVideoRef(entry)];
      }
      i := i + 1;
    }
    assert window[..i] == window;
  }

  /** A `None` entry anywhere makes the whole shaping raise. */
  lemma MapEntriesRaises(es: seq<RawEntry>, k: nat)
    requires k < |es| && es[k].NullEntry?
    ensures MapEntries(es).None?
  {
  }
}
