/** Fetching one video's comments (`extract_comments` in the dlp
    extractor): the library's info dict is turned into normalised comment
    records. The library call is the parameter of type `FetchResult`; every
    exception, the library's or the shaping loop's, becomes `(0, [])`. */
module CommentExtractor {
  import opened Wrappers
  import opened Text

  const MaxTextLength := 2000

  /** One element of the library's `comments`: a falsy value (`None` or an
      empty dict), or a dict whose keys may each be absent. */
  datatype RawComment =
    | FalsyComment
    | RawComment(id: Option<string>, text: Option<string>, author: Option<string>,
                 likeCount: Option<int>, timestamp: Option<int>)

  /** What `extract_info` returns: nothing, or an info dict that may lack
      the `comments` key. */
  datatype VideoInfo = NoVideoInfo | VideoInfo(comments: Option<seq<RawComment>>)

  /** The library call either raises or returns. */
  datatype FetchResult = FetchRaises | Fetched(info: VideoInfo)

  /** A normalised comment; an absent timestamp is the empty-string default. */
  datatype CommentRecord = CommentRecord(id: string, text: string, author: string, likes: int, timestamp: Option<int>)

  /** The text is cut to the first 2000 characters, then every double quote
      becomes a single quote, one character for one. */
  function NormalizeText(t: string): (r: string)
    ensures |r| <= MaxTextLength && '"' !in r
    ensures |r| == if |t| <= MaxTextLength then |t| else MaxTextLength
    ensures forall k :: 0 <= k < |r| ==> r[k] == (if t[k] == '"' then '\'' else t[k])
  {
    ReplaceChar(PrefixSlice(t, MaxTextLength), '"', '\'')
  }

  /** Because the replacement is one-for-one, cutting first or replacing
      first gives the same text. */
  lemma NormalizeTextEitherOrder(t: string)
    ensures NormalizeText(t) == PrefixSlice(ReplaceChar(t, '"', '\''), MaxTextLength)
  {
    var n := if |t| <= MaxTextLength then |t| else MaxTextLength;
    assert PrefixSlice(t, MaxTextLength) == t[..n];
    ReplaceCommutesWithPrefix(t, '"', '\'', n);
  }

  /** The record for one truthy entry, with the defaults of `.get`. */
  function NormalizeComment(c: RawComment): (r: CommentRecord)
    requires c.RawComment?
    ensures r.id == c.id.GetOr("") && r.author == c.author.GetOr("")
    ensures r.likes == c.likeCount.GetOr(0) && r.timestamp == c.timestamp
    ensures r.text == NormalizeText(c.text.GetOr(""))
  {
    CommentRecord(c.id.GetOr(""), NormalizeText(c.text.GetOr("")), c.author.GetOr(""),
                  c.likeCount.GetOr(0), c.timestamp)
  }

  /** The normalisation loop: falsy entries are skipped, every other entry
      gives one record. */
  function NormalizeAll(cs: seq<RawComment>): (r: seq<CommentRecord>)
    ensures |r| <= |cs|
    ensures forall k :: 0 <= k < |r| ==> |r[k].text| <= MaxTextLength && '"' !in r[k].text
  {
    if cs == [] then []
    else
      var prev := NormalizeAll(cs[..|cs| - 1]);
      var c := cs[|cs| - 1];
      if c.FalsyComment? then prev else prev + [NormalizeComment(c)]
  }

  /** Entries are normalised one by one, keeping their order. */
  lemma {:induction false} NormalizeAllAppend(a: seq<RawComment>, b: seq<RawComment>)
    ensures NormalizeAll(a + b) == NormalizeAll(a) + NormalizeAll(b)
  {
    if b == [] {
      assert a + b == a;
    } else {
      var b' := b[..|b| - 1];
      var c := b[|b| - 1];
      NormalizeAllAppend(a, b');
      assert (a + b)[..|a + b| - 1] == a + b';
      assert (a + b)[|a + b| - 1] == c;
      if !c.FalsyComment? {
        assert (NormalizeAll(a) + NormalizeAll(b')) + [NormalizeComment(c)]
          == NormalizeAll(a) + (NormalizeAll(b') + [NormalizeComment(c)]);
      }
    }
  }

  /** A falsy entry gives no record, any other exactly one. */
  lemma NormalizeAllSingle(c: RawComment)
    ensures NormalizeAll([c]) == if c.FalsyComment? then [] else [NormalizeComment(c)]
  {
    assert [c][..0] == [];
    if c.RawComment? {
      assert [] + [NormalizeComment(c)] == [NormalizeComment(c)];
    }
  }

  /** When no entry is falsy, records and entries correspond position by position. */
  lemma {:induction false} NormalizeAllNoFalsy(cs: seq<RawComment>)
    requires forall k :: 0 <= k < |cs| ==> cs[k].RawComment?
    ensures |NormalizeAll(cs)| == |cs|
    ensures forall k :: 0 <= k < |cs| ==> NormalizeAll(cs)[k] == NormalizeComment(cs[k])
  {
    if cs != [] {
      NormalizeAllNoFalsy(cs[..|cs| - 1]);
    }
  }

  /** The `(count, comments)` pair `extract_comments` returns. */
  function ExtractCommentsSpec(f: FetchResult): (r: (int, seq<CommentRecord>))
    ensures r.0 == |r.1|
    ensures !(f.Fetched? && f.info.VideoInfo? && f.info.comments.Some?) ==> r == (0, [])
  {
    match f
    case FetchRaises => (0, [])
    case Fetched(NoVideoInfo) => (0, [])
    case Fetched(VideoInfo(None)) => (0, [])
    case Fetched(VideoInfo(Some(cs))) => var records := NormalizeAll(cs); (|records|, records)
  }

  method ExtractComments(f: FetchResult) returns (total: int, comments: seq<CommentRecord>)
    ensures (total, comments) == ExtractCommentsSpec(f)
    ensures total == |comments|
    ensures forall k :: 0 <= k < |comments| ==> |comments[k].text| <= MaxTextLength && '"' !in comments[k].text
  {
    if f.FetchRaises? || f.info.NoVideoInfo? || f.info.comments.None? {
      return 0, [];
    }
    var entries := f.info.comments.value;
    comments := [];
    var i := 0;
    while i < |entries|
      invariant 0 <= i <= |entries|
      invariant comments == NormalizeAll(entries[..i])
    {
      var entry := entries[i];
      assert entries[..i + 1][..i] == entries[..i];
      if !entry.FalsyComment? {
        comments := comments + [NormalizeComment(entry)];
      }
      i := i + 1;
    }
    assert entries[..i] == entries;
    total := |comments|;
  }
}
