/** TV mode's video player state (tv.js): the playlist (the default one,
    replaced by the user's saved one when that is present and non-empty),
    the index of the video playing, whether the video selector is open, and
    the embed URL given to the player. The URL lists the whole playlist
    rotated so that the chosen video comes first. Fetching and the DOM are
    not modelled: what the server answered is a parameter. */
module Tv {

  import opened Wrappers
  import opened Records
  import Text
  import SnowReport

  /** `playlist.map(v => v.id)`. */
  function Ids(playlist: seq<Video>): (r: seq<string>)
    ensures |r| == |playlist|
    ensures forall i :: 0 <= i < |playlist| ==> r[i] == playlist[i].id
  {
    if playlist == [] then [] else [playlist[0].id] + Ids(playlist[1..])
  }

  /** Where `slice(start)` and `slice(0, start)` cut a sequence of length
      `n`: a negative start counts from the end, and both are clamped. */
  function SliceIndex(start: int, n: nat): (c: nat)
    ensures c <= n
    ensures 0 <= start <= n ==> c == start
  {
    if start < 0 then (if n + start < 0 then 0 else n + start)
    else if start > n then n
    else start
  }

  /** `[...ids.slice(start), ...ids.slice(0, start)]`. */
  function Rotate(ids: seq<string>, start: int): seq<string>
  {
    var c := SliceIndex(start, |ids|);
    ids[c..] + ids[..c]
  }

  /** A rotation keeps every id and its multiplicity. */
  lemma RotatePermutes(ids: seq<string>, start: int)
    ensures |Rotate(ids, start)| == |ids|
    ensures multiset(Rotate(ids, start)) == multiset(ids)
  {
    var c := SliceIndex(start, |ids|);
    assert ids == ids[..c] + ids[c..];
  }

  /** From a start inside the list, position `i` of the rotation holds the
      id `i` places after the start, wrapping round at the end. */
  lemma RotateAt(ids: seq<string>, start: int, i: int)
    requires 0 <= start < |ids| && 0 <= i < |ids|
    ensures |Rotate(ids, start)| == |ids|
    ensures Rotate(ids, start)[i] == ids[(start + i) % |ids|]
  {
    var n := |ids|;
    var r := Rotate(ids, start);
    assert r == ids[start..] + ids[..start];
    if start + i < n {
      assert r[i] == ids[start..][i];
      ModBelow(start + i, n);
    } else {
      assert r[i] == ids[..start][start + i - n];
      ModWrap(start + i, n);
    }
  }

  lemma ModBelow(x: int, n: int)
    requires 0 <= x < n
    ensures x % n == x
  {
  }

  lemma ModWrap(x: int, n: int)
    requires 0 < n <= x < 2 * n
    ensures x % n == x - n
  {
    assert x == n * 1 + (x - n);
  }

  /** The chosen video comes first, and start 0 keeps the saved order. */
  lemma RotateFirst(ids: seq<string>, start: int)
    requires 0 <= start < |ids|
    ensures Rotate(ids, start) != [] && Rotate(ids, start)[0] == ids[start]
    ensures start == 0 ==> Rotate(ids, start) == ids
  {
    RotateAt(ids, start, 0);
  }

  const EmbedBase := "https://www.youtube-nocookie.com/embed/"
  const EmbedQuery := "?autoplay=1&mute=1&loop=1&playlist="
  const EmbedTail := "&controls=0"

  /** `reorderedIds[0]` in a template string: `undefined` for an empty list. */
  function FirstId(ids: seq<string>): (r: string)
    ensures ids != [] ==> r == ids[0]
  {
    if ids == [] then "undefined" else ids[0]
  }

  /** `buildPlaylistUrl(startIndex)`. */
  function BuildPlaylistUrl(playlist: seq<Video>, startIndex: int): string
  {
    var reordered := Rotate(Ids(playlist), startIndex);
    EmbedBase + FirstId(reordered) + EmbedQuery + Text.Join(reordered, ",") + EmbedTail
  }

  /** Ids never hold a comma. */
  ghost predicate CommaFree(playlist: seq<Video>)
  {
    forall i, j :: 0 <= i < |playlist| && 0 <= j < |playlist[i].id| ==> playlist[i].id[j] != ','
  }

  /** For a start inside a non-empty playlist, the URL embeds the chosen
      video and its `playlist` parameter splits at the commas back into
      every id of the playlist, in rotation order from the chosen one. */
  lemma PlaylistUrlListsRotation(playlist: seq<Video>, startIndex: int)
    requires 0 <= startIndex < |playlist|
    requires CommaFree(playlist)
    ensures exists param: string ::
      BuildPlaylistUrl(playlist, startIndex)
        == EmbedBase + playlist[startIndex].id + EmbedQuery + param + EmbedTail
      && |Text.Split(param, ',')| == |playlist|
      && forall i :: 0 <= i < |playlist| ==>
           Text.Split(param, ',')[i] == playlist[(startIndex + i) % |playlist|].id
  {
    var ids := Ids(playlist);
    var reordered := Rotate(ids, startIndex);
    RotateFirst(ids, startIndex);
    RotatePermutes(ids, startIndex);
    forall k, j | 0 <= k < |reordered| && 0 <= j < |reordered[k]|
      ensures reordered[k][j] != ','
    {
      RotateAt(ids, startIndex, k);
    }
    var param := Text.Join(reordered, ",");
    Text.SplitJoin(reordered, ',');
    forall i | 0 <= i < |playlist|
      ensures Text.Split(param, ',')[i] == playlist[(startIndex + i) % |playlist|].id
    {
      RotateAt(ids, startIndex, i);
    }
  }

  /** What loading the user's settings by TV token came to. */
  datatype TokenReply =
    | NotOk                                     // the response was not ok
    | Unreadable                                // the request or the JSON body failed
    | Config(playlist: Option<seq<Video>>)      // the body parsed; its playlist, if any

  /** `forecast.length > 8`: the overlay switches to its compact layout. */
  function IsCompact(forecastLength: nat): (r: bool)
    ensures r <==> forecastLength >= 9
  {
    forecastLength > 8
  }

  /** On the forecast the snow-report endpoint serves, the overlay is
      compact exactly when every one of the nine labels had a section on
      the page: the forecast never holds more than nine entries. */
  lemma CompactExactlyWhenEveryLabel(sections: map<string, SnowReport.Section>, todayIndex: int)
    ensures var f := SnowReport.SortForecast(SnowReport.Pushed(sections, SnowReport.Days), todayIndex);
      IsCompact(|f|) <==> forall d :: d in SnowReport.Days ==> d in sections
  {
    SnowReport.ForecastFull(sections, todayIndex);
  }

  class TvPlayer {
    var playlist: seq<Video>
    var currentVideoIndex: int
    var isVideoSelectorOpen: bool
    /** The player's `src`, once one was set. */
    var src: Option<string>

    /** The playlist is never empty and the index never negative: the
        constructor and every method keep this. */
    ghost predicate Valid()
      reads this
    {
      |playlist| > 0 && 0 <= currentVideoIndex
    }

    /** The page's start: the default playlist, first video, selector closed. */
    constructor ()
      ensures Valid()
      ensures playlist == DefaultVideos && currentVideoIndex == 0
      ensures !isVideoSelectorOpen && src == None
    {
      playlist := DefaultVideos;
      currentVideoIndex := 0;
      isVideoSelectorOpen := false;
      src := None;
    }

    /** `loadUserConfig`: `config` is the saved playlist when the user was
        signed in, the request succeeded and the record had one; a present
        but empty playlist is ignored. */
    method LoadUserConfig(config: Option<seq<Video>>)
      modifies this
      ensures config.Some? && |config.value| > 0 ==> playlist == config.value
      ensures !(config.Some? && |config.value| > 0) ==> playlist == old(playlist)
      ensures currentVideoIndex == old(currentVideoIndex)
      ensures isVideoSelectorOpen == old(isVideoSelectorOpen) && src == old(src)
      ensures old(Valid()) ==> Valid()
    {
      if config.Some? && |config.value| > 0 {
        playlist := config.value;
      }
    }

    /** `loadUserConfigByToken`: true once the server accepted the token,
        whether or not it sent a usable playlist. */
    method LoadUserConfigByToken(reply: TokenReply) returns (valid: bool)
      modifies this
      ensures valid <==> reply.Config?
      ensures reply.Config? && reply.playlist.Some? && |reply.playlist.value| > 0 ==>
        playlist == reply.playlist.value
      ensures !(reply.Config? && reply.playlist.Some? && |reply.playlist.value| > 0) ==>
        playlist == old(playlist)
      ensures currentVideoIndex == old(currentVideoIndex)
      ensures isVideoSelectorOpen == old(isVideoSelectorOpen) && src == old(src)
      ensures old(Valid()) ==> Valid()
    {
      if !reply.Config? {
        return false;
      }
      if reply.playlist.Some? && |reply.playlist.value| > 0 {
        playlist := reply.playlist.value;
      }
      return true;
    }

    /** The start of the video in `init`: the playlist in its saved order.
        The page's guard `playlist.length > 0` always passes, since the
        playlist is the non-empty default or a non-empty saved one. */
    method StartVideo()
      modifies this
      ensures |playlist| > 0 ==> src == Some(BuildPlaylistUrl(playlist, 0))
      ensures old(Valid()) ==> Valid() && src == Some(BuildPlaylistUrl(playlist, 0))
      ensures |playlist| > 0 ==> var ids := Rotate(Ids(playlist), 0); ids == Ids(playlist)
      ensures |playlist| == 0 ==> src == old(src)
      ensures playlist == old(playlist) && currentVideoIndex == old(currentVideoIndex)
      ensures isVideoSelectorOpen == old(isVideoSelectorOpen)
    {
      if |playlist| > 0 {
        RotateFirst(Ids(playlist), 0);
        src := Some(BuildPlaylistUrl(playlist, 0));
      }
    }

    /** `playVideoByIndex`: an index outside the playlist is ignored; a
        valid one becomes current, restarts the player from that video and
        closes the selector. */
    method PlayVideoByIndex(index: int)
      modifies this
      ensures 0 <= index < |playlist| ==>
        currentVideoIndex == index && !isVideoSelectorOpen
        && src == Some(BuildPlaylistUrl(playlist, index))
      ensures !(0 <= index < |playlist|) ==>
        currentVideoIndex == old(currentVideoIndex)
        && isVideoSelectorOpen == old(isVideoSelectorOpen) && src == old(src)
      ensures playlist == old(playlist)
      ensures old(Valid()) ==> Valid()
    {
      if index < 0 || index >= |playlist| {
        return;
      }
      currentVideoIndex := index;
      src := Some(BuildPlaylistUrl(playlist, index));
      CloseVideoSelector();
    }

    /** `toggleVideoSelector`. */
    method ToggleVideoSelector()
      modifies this
      ensures isVideoSelectorOpen == !old(isVideoSelectorOpen)
      ensures playlist == old(playlist) && currentVideoIndex == old(currentVideoIndex) && src == old(src)
    {
      isVideoSelectorOpen := !isVideoSelectorOpen;
    }

    /** `closeVideoSelector`. */
    method CloseVideoSelector()
      modifies this
      ensures !isVideoSelectorOpen
      ensures playlist == old(playlist) && currentVideoIndex == old(currentVideoIndex) && src == old(src)
    {
      isVideoSelectorOpen := false;
    }
  }
}
