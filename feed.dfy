/** The video feed: the list of videos with a like slot and a comment list
    per video, the index of the video in view, the comment dialog, the
    cosmetic filter, and the two downloads. */
module Feed {
  import opened Common
  import opened Text

  const HttpScheme: string := "http:"
  const HttpsScheme: string := "https:"
  const Grayscale: string := "grayscale(100%)"
  const Blur: string := "blur(5px)"
  const NoFilter: string := "none"

  /** A video descriptor as the server sends it: its id, its URL and the
      remaining fields, which the feed passes through untouched. */
  datatype Video = Video(id: string, videoUrl: string, fields: map<string, string>)

  datatype Comment = Comment(text: string)

  /** The request a comment submission sends: the target video's id
      (missing when no video is current) and the text. */
  datatype CommentRequest = CommentRequest(videoId: Option<string>, text: string)

  /** A DOM element, known only by its identity. */
  type Element = nat

  /** One entry handed to the visibility observer's callback. */
  datatype Entry = Entry(target: Element, isIntersecting: bool)

  /** What the audio download button achieves. */
  datatype AudioDownload = SavedAudio(fileName: string) | NoAudioAlert | NotSaved

  predicate StartsWith(s: string, prefix: string) {
    |prefix| <= |s| && s[..|prefix|] == prefix
  }

  /** `url.replace(/^http:/, 'https:')`: a leading "http:" becomes "https:". */
  function ToHttps(url: string): (r: string)
    ensures StartsWith(url, HttpScheme) ==> r == HttpsScheme + url[|HttpScheme|..]
    ensures !StartsWith(url, HttpScheme) ==> r == url
    ensures !StartsWith(r, HttpScheme)
  {
    if StartsWith(url, HttpScheme) then
      var r := HttpsScheme + url[|HttpScheme|..];
      assert r[4] == 's';
      r
    else url
  }

  /** Rewriting twice is rewriting once; in particular an "https:" URL is left alone. */
  lemma ToHttpsIdempotent(url: string)
    ensures ToHttps(ToHttps(url)) == ToHttps(url)
  {
  }

  /** The descriptor the feed keeps: only the URL changes. */
  function WithHttps(v: Video): (w: Video)
    ensures w.id == v.id && w.fields == v.fields
    ensures w.videoUrl == ToHttps(v.videoUrl)
  {
    v.(videoUrl := ToHttps(v.videoUrl))
  }

  /** `like === 1 ? 0 : 1`. */
  function Toggle(like: int): (r: int)
    ensures r == 0 || r == 1
    ensures r == 1 <==> like != 1
  {
    if like == 1 then 0 else 1
  }

  /** Toggling a 0/1 slot twice restores it. */
  lemma ToggleTwice(like: int)
    requires like == 0 || like == 1
    ensures Toggle(Toggle(like)) == like
  {
  }

  /** The like slots after liking video `index`: the copy has slot `index`
      toggled. Writing past the end of a JavaScript array grows it, leaving
      holes; a hole reads as undefined, which the feed displays (`|| 0`) and
      toggles (`=== 1`) exactly as it does 0, so holes are 0 here. */
  function Liked(likes: seq<int>, index: nat): (r: seq<int>)
    ensures index < |likes| ==> |r| == |likes|
    ensures |likes| <= index ==> |r| == index + 1 && forall k :: |likes| <= k < index ==> r[k] == 0
    ensures index < |r| && r[index] == (if index < |likes| then Toggle(likes[index]) else 1)
    ensures forall k :: 0 <= k < |likes| && k != index ==> r[k] == likes[k]
  {
    if index < |likes| then likes[index := Toggle(likes[index])]
    else likes + seq(index - |likes|, _ => 0) + [1]
  }

  /** Liking the same video twice restores the like slots. */
  lemma {:induction false} LikeTwiceRestores(likes: seq<int>, index: nat)
    requires index < |likes| && (likes[index] == 0 || likes[index] == 1)
    ensures Liked(Liked(likes, index), index) == likes
  {
    ToggleTwice(likes[index]);
  }

  /** The comment lists after `text` is posted on video `index`: it is
      appended to that video's list and no other list changes. */
  function Commented(comments: seq<seq<Comment>>, index: nat, text: string): (r: seq<seq<Comment>>)
    ensures |r| == |comments|
    ensures index < |comments| ==> r[index] == comments[index] + [Comment(text)]
    ensures forall k :: 0 <= k < |comments| && k != index ==> r[k] == comments[k]
  {
    if index < |comments| then comments[index := comments[index] + [Comment(text)]] else comments
  }

  /** The CSS filter written for the selected filter name. The mapping is
      total: any name other than "B&W" and "Blur" resets the filter. */
  function CssFilter(name: string): (css: string)
    ensures css == Grayscale <==> name == "B&W"
    ensures css == Blur <==> name == "Blur"
    ensures css == NoFilter <==> name != "B&W" && name != "Blur"
  {
    if name == "B&W" then Grayscale
    else if name == "Blur" then Blur
    else if name == "Sharp" then NoFilter
    else NoFilter
  }

  /** Whether the HEAD response's Content-Type announces audio or video;
      `None` stands for a failed request or a missing header, both of which
      end in the error path and give false. */
  function HasAudio(contentType: Option<string>): (r: bool)
    ensures r <==> (contentType.Some? &&
                    ((exists i :: OccursAt(contentType.value, "audio/", i)) ||
                     (exists i :: OccursAt(contentType.value, "video/", i))))
  {
    match contentType
    case None => false
    case Some(t) => Includes(t, "audio/") || Includes(t, "video/")
  }

  /** A download name: `prefix`, the one-based position, `suffix`. */
  function NumberedName(prefix: string, index: nat, suffix: string): (name: string)
    ensures |prefix| + |suffix| < |name|
    ensures name[..|prefix|] == prefix && name[|name| - |suffix|..] == suffix
    ensures All(name[|prefix|..|name| - |suffix|], Digit)
    ensures DecimalValue(name[|prefix|..|name| - |suffix|]) == index + 1
    ensures |name| - |prefix| - |suffix| > 1 ==> name[|prefix|] != '0'
  {
    var digits := Decimal(index + 1);
    var name := prefix + digits + suffix;
    assert name[|prefix|..|name| - |suffix|] == digits;
    DecimalRoundTrip(index + 1);
    name
  }

  /** `video-${currentIndex + 1}.mp4` */
  function VideoFileName(index: nat): (name: string)
    ensures |name| > 10 && name[..6] == "video-" && name[|name| - 4..] == ".mp4"
    ensures All(name[6..|name| - 4], Digit) && (|name| > 11 ==> name[6] != '0')
    ensures DecimalValue(name[6..|name| - 4]) == index + 1
  {
    NumberedName("video-", index, ".mp4")
  }

  /** `audio-${currentIndex + 1}.mp3` */
  function AudioFileName(index: nat): (name: string)
    ensures |name| > 10 && name[..6] == "audio-" && name[|name| - 4..] == ".mp3"
    ensures All(name[6..|name| - 4], Digit) && (|name| > 11 ==> name[6] != '0')
    ensures DecimalValue(name[6..|name| - 4]) == index + 1
  {
    NumberedName("audio-", index, ".mp3")
  }

  /** Each position gets its own video file name and its own audio file
      name, and the two kinds never coincide. */
  lemma {:induction false} FileNamesDistinct(i: nat, j: nat)
    ensures VideoFileName(i) == VideoFileName(j) ==> i == j
    ensures AudioFileName(i) == AudioFileName(j) ==> i == j
    ensures VideoFileName(i) != AudioFileName(j)
  {
    var vi, vj, aj := VideoFileName(i), VideoFileName(j), AudioFileName(j);
    assert vi[..6] == "video-" && aj[..6] == "audio-";
    assert vi[0] != aj[0];
  }

  /** The index the observer sets for one entry: the position of its target
      among the video elements when it is in view and found, else `current`. */
  function Step(entry: Entry, refs: seq<Element>, current: nat): nat {
    var index := IndexOf(refs, entry.target);
    if entry.isIntersecting && index != -1 then index else current
  }

  /** The index after the observer's callback has gone through `entries` in order. */
  function ObservedIndex(entries: seq<Entry>, refs: seq<Element>, current: nat): (r: nat)
    ensures r == current || r < |refs|
    decreases |entries|
  {
    if entries == [] then current
    else Step(entries[|entries| - 1], refs, ObservedIndex(entries[..|entries| - 1], refs, current))
  }

  /** The position the callback finds for one entry, if it is in view and found. */
  function Found(entry: Entry, refs: seq<Element>): set<nat> {
    var index := IndexOf(refs, entry.target);
    if entry.isIntersecting && index != -1 then {index as nat} else {}
  }

  /** The positions of the elements the callback found in view among `entries`. */
  function FoundIndices(entries: seq<Entry>, refs: seq<Element>): (found: set<nat>)
    ensures forall k :: k in found ==> k < |refs|
    decreases |entries|
  {
    if entries == [] then {}
    else FoundIndices(entries[..|entries| - 1], refs) + Found(entries[|entries| - 1], refs)
  }

  /** Going through one more entry. */
  lemma ObserveOneMore(entries: seq<Entry>, refs: seq<Element>, current: nat, i: nat)
    requires i < |entries|
    ensures ObservedIndex(entries[..i + 1], refs, current) == Step(entries[i], refs, ObservedIndex(entries[..i], refs, current))
    ensures FoundIndices(entries[..i + 1], refs) == FoundIndices(entries[..i], refs) + Found(entries[i], refs)
  {
    assert entries[..i + 1][..i] == entries[..i];
  }

  /** The style filters after `css` is written to every position in `found`. */
  function Painted(styles: map<nat, string>, found: set<nat>, css: string): map<nat, string> {
    styles + map k | k in found :: css
  }

  lemma PaintedOneMore(styles: map<nat, string>, found: set<nat>, k: nat, css: string)
    ensures Painted(styles, found, css)[k := css] == Painted(styles, found + {k}, css)
  {
  }

  /** Painting after one more entry: the entry's position is written if it
      was found in view, and nothing changes otherwise. */
  lemma PaintOneMore(entries: seq<Entry>, refs: seq<Element>, i: nat, styles: map<nat, string>, css: string)
    requires i < |entries|
    ensures var before := Painted(styles, FoundIndices(entries[..i], refs), css);
      var index := IndexOf(refs, entries[i].target);
      Painted(styles, FoundIndices(entries[..i + 1], refs), css) ==
        if entries[i].isIntersecting && index != -1 then before[index := css] else before
  {
    ObserveOneMore(entries, refs, 0, i);
    var found := FoundIndices(entries[..i], refs);
    var index := IndexOf(refs, entries[i].target);
    if entries[i].isIntersecting && index != -1 {
      PaintedOneMore(styles, found, index, css);
    } else {
      assert found + Found(entries[i], refs) == found;
    }
  }

  /** The observer only ever moves to a position it actually found: the first
      occurrence of an in-view entry's target. Otherwise the index stays. */
  lemma {:induction false} ObservedIndexIsFound(entries: seq<Entry>, refs: seq<Element>, current: nat)
    ensures var r := ObservedIndex(entries, refs, current);
      r == current ||
      (r < |refs| && refs[r] !in refs[..r] &&
       exists k :: 0 <= k < |entries| && entries[k].isIntersecting && entries[k].target == refs[r])
  {
    if entries != [] {
      var prefix := entries[..|entries| - 1];
      ObservedIndexIsFound(prefix, refs, current);
      var r := ObservedIndex(prefix, refs, current);
      if r != current {
        var k :| 0 <= k < |prefix| && prefix[k].isIntersecting && prefix[k].target == refs[r];
        assert entries[k] == prefix[k];
      }
    }
  }

  /** An observer callback in which no entry is in view changes nothing. */
  lemma {:induction false} NothingInViewKeepsIndex(entries: seq<Entry>, refs: seq<Element>, current: nat)
    requires forall k :: 0 <= k < |entries| ==> !entries[k].isIntersecting
    ensures ObservedIndex(entries, refs, current) == current
    ensures FoundIndices(entries, refs) == {}
  {
    if entries != [] {
      var prefix := entries[..|entries| - 1];
      assert forall k :: 0 <= k < |prefix| ==> prefix[k] == entries[k];
      NothingInViewKeepsIndex(prefix, refs, current);
    }
  }

  class FeedPage {
    var videos: seq<Video>
    /** One like slot per video, 0 or 1. */
    var likes: seq<int>
    /** One comment list per video. */
    var comments: seq<seq<Comment>>
    var currentIndex: nat
    var isCommentDialogOpen: bool
    var commentText: string
    var filter: string
    /** The CSS filter last written to the style of the video element at each position. */
    var styleFilters: map<nat, string>

    /** Comments run parallel to the videos and every like slot is 0 or 1. */
    ghost predicate Valid()
      reads this
    {
      |comments| == |videos| &&
      forall i :: 0 <= i < |likes| ==> likes[i] == 0 || likes[i] == 1
    }

    constructor ()
      ensures Valid()
      ensures videos == [] && likes == [] && comments == [] && currentIndex == 0
      ensures !isCommentDialogOpen && commentText == "" && filter == "" && styleFilters == map[]
    {
      videos, likes, comments, currentIndex := [], [], [], 0;
      isCommentDialogOpen, commentText, filter, styleFilters := false, "", "", map[];
    }

    /** Installs the fetched list, `None` if the request failed. Each URL is
        moved to https, every like slot starts at 0 and every comment list
        empty. A failed fetch changes nothing. */
    method FetchVideos(data: Option<seq<Video>>)
      requires Valid()
      modifies this`videos, this`likes, this`comments
      ensures Valid()
      ensures data.None? ==> videos == old(videos) && likes == old(likes) && comments == old(comments)
      ensures data.Some? ==> |videos| == |data.value| && forall i :: 0 <= i < |videos| ==> videos[i] == WithHttps(data.value[i])
      ensures data.Some? ==> |likes| == |videos| && forall i :: 0 <= i < |likes| ==> likes[i] == 0
      ensures data.Some? ==> |comments| == |videos| && forall i :: 0 <= i < |comments| ==> comments[i] == []
    {
      if data.Some? {
        var fetched := data.value;
        var updated := seq(|fetched|, i requires 0 <= i < |fetched| => WithHttps(fetched[i]));
        videos := updated;
        comments := seq(|updated|, _ => []);
        likes := seq(|updated|, _ => 0);
      }
    }

    /** Likes video `index` when a token is stored; without one nothing changes. */
    method HandleLike(index: nat, storage: map<string, string>)
      requires Valid()
      modifies this`likes
      ensures Valid()
      ensures likes == if HasToken(storage) then Liked(old(likes), index) else old(likes)
    {
      if !HasToken(storage) {
        return;
      }
      likes := Liked(likes, index);
    }

    method HandleCommentClick()
      modifies this`isCommentDialogOpen
      ensures isCommentDialogOpen
    {
      isCommentDialogOpen := true;
    }

    method CloseCommentDialog()
      modifies this`isCommentDialogOpen
      ensures !isCommentDialogOpen
    {
      isCommentDialogOpen := false;
    }

    method HandleCommentTextChange(value: string)
      modifies this`commentText
      ensures commentText == value
    {
      commentText := value;
    }

    method SetFilter(name: string)
      modifies this`filter
      ensures filter == name
    {
      filter := name;
    }

    /** The id of the current video, `videos[currentIndex]?._id`. */
    function CurrentVideoId(): (id: Option<string>)
      reads this
      ensures id.Some? <==> currentIndex < |videos|
      ensures id.Some? ==> id.value == videos[currentIndex].id
    {
      if currentIndex < |videos| then Some(videos[currentIndex].id) else None
    }

    /** Submits the comment text for the current video. `request` is what is
        sent (nothing without a token) and `posted` whether the server
        accepted it. Only an accepted post appends the comment, clears the
        text and closes the dialog. */
    method HandleCommentSubmit(storage: map<string, string>, posted: bool) returns (request: Option<CommentRequest>)
      requires Valid()
      modifies this`comments, this`commentText, this`isCommentDialogOpen
      ensures Valid()
      ensures request.Some? <==> HasToken(storage)
      ensures request.Some? ==> request.value == CommentRequest(CurrentVideoId(), old(commentText))
      ensures HasToken(storage) && posted ==>
        comments == Commented(old(comments), currentIndex, old(commentText)) &&
        commentText == "" && !isCommentDialogOpen
      ensures !(HasToken(storage) && posted) ==>
        comments == old(comments) && commentText == old(commentText) &&
        isCommentDialogOpen == old(isCommentDialogOpen)
    {
      if !HasToken(storage) {
        return None;
      }
      request := Some(CommentRequest(CurrentVideoId(), commentText));
      if !posted {
        return;
      }
      comments := Commented(comments, currentIndex, commentText);
      commentText := "";
      isCommentDialogOpen := false;
    }

    /** The observer's callback: for every entry in view whose target is one
        of the video elements `refs`, the current index moves to that
        element's position and the selected filter is written to its style. */
    method OnIntersection(entries: seq<Entry>, refs: seq<Element>)
      modifies this`currentIndex, this`styleFilters
      ensures currentIndex == ObservedIndex(entries, refs, old(currentIndex))
      ensures styleFilters == Painted(old(styleFilters), FoundIndices(entries, refs), CssFilter(filter))
    {
      ghost var start, styles := currentIndex, styleFilters;
      var css := CssFilter(filter);
      for i := 0 to |entries|
        invariant currentIndex == ObservedIndex(entries[..i], refs, start)
        invariant styleFilters == Painted(styles, FoundIndices(entries[..i], refs), css)
      {
        ObserveOneMore(entries, refs, start, i);
        PaintOneMore(entries, refs, i, styles, css);
        var entry := entries[i];
        if entry.isIntersecting {
          var index := IndexOf(refs, entry.target);
          if index != -1 {
            currentIndex := index;
            styleFilters := styleFilters[index := css];
          }
        }
      }
      assert entries[..|entries|] == entries;
    }

    /** The like count shown for the current video, `likes[currentIndex] || 0`. */
    function ShownLikes(): (n: int)
      reads this
      requires Valid()
      ensures n == 0 || n == 1
      ensures n == 1 <==> currentIndex < |likes| && likes[currentIndex] == 1
    {
      if currentIndex < |likes| then likes[currentIndex] else 0
    }

    /** The URL of the current video when there is one and it is not empty. */
    function CurrentUrl(): (url: Option<string>)
      reads this
      ensures url.Some? <==> currentIndex < |videos| && videos[currentIndex].videoUrl != ""
      ensures url.Some? ==> url.value == videos[currentIndex].videoUrl
    {
      if currentIndex < |videos| && videos[currentIndex].videoUrl != "" then Some(videos[currentIndex].videoUrl) else None
    }

    /** Downloads the current video; `fetched` says whether the fetch of its
        URL succeeded. Returns the name the file is saved under, if any. */
    method HandleDownload(fetched: bool) returns (saved: Option<string>)
      ensures saved.Some? <==> CurrentUrl().Some? && fetched
      ensures saved.Some? ==> saved.value == VideoFileName(currentIndex)
    {
      saved := None;
      if CurrentUrl().Some? && fetched {
        saved := Some(VideoFileName(currentIndex));
      }
    }

    /** Downloads the current video's audio. `contentType` is the answer to
        the HEAD request and `fetched` whether the following fetch succeeded. */
    method HandleAudioDownload(contentType: Option<string>, fetched: bool) returns (outcome: AudioDownload)
      ensures outcome.SavedAudio? <==> CurrentUrl().Some? && HasAudio(contentType) && fetched
      ensures outcome.SavedAudio? ==> outcome.fileName == AudioFileName(currentIndex)
      ensures outcome.NoAudioAlert? <==> CurrentUrl().Some? && !HasAudio(contentType)
    {
      outcome := NotSaved;
      if CurrentUrl().Some? {
        if HasAudio(contentType) {
          if fetched {
            outcome := SavedAudio(AudioFileName(currentIndex));
          }
        } else {
          outcome := NoAudioAlert;
        }
      }
    }
  }
}
