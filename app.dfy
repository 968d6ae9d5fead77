/** The dashboard's video player state (app.js): a fixed playlist, the index
    of the video playing and whether the video selector is open. The YouTube
    player and the DOM are not modelled. */
module App {

  import opened Records

  class Dashboard {
    /** `CONFIG.videoPlaylist`. */
    const playlist: seq<Video>
    var currentVideoIndex: int
    var isVideoSelectorOpen: bool

    ghost predicate Valid()
      reads this
    {
      |playlist| > 0 && 0 <= currentVideoIndex < |playlist|
    }

    /** The page's start: the first video, selector closed. */
    constructor ()
      ensures Valid()
      ensures playlist == DefaultVideos && currentVideoIndex == 0 && !isVideoSelectorOpen
    {
      playlist := DefaultVideos;
      currentVideoIndex := 0;
      isVideoSelectorOpen := false;
    }

    /** `playVideoByIndex`: an index outside the playlist is ignored; a valid
        one becomes current and closes the selector. */
    method PlayVideoByIndex(index: int)
      modifies this
      ensures 0 <= index < |playlist| ==> currentVideoIndex == index && !isVideoSelectorOpen
      ensures !(0 <= index < |playlist|) ==>
        currentVideoIndex == old(currentVideoIndex) && isVideoSelectorOpen == old(isVideoSelectorOpen)
      ensures old(Valid()) ==> Valid()
    {
      if index < 0 || index >= |playlist| {
        return;
      }
      currentVideoIndex := index;
      CloseVideoSelector();
    }

    /** `playNextVideo`: advances cyclically, so the index stays in range. */
    method PlayNextVideo()
      requires Valid()
      modifies this
      ensures Valid()
      ensures currentVideoIndex == (old(currentVideoIndex) + 1) % |playlist|
      ensures currentVideoIndex == if old(currentVideoIndex) == |playlist| - 1 then 0 else old(currentVideoIndex) + 1
      ensures isVideoSelectorOpen == old(isVideoSelectorOpen)
    {
      currentVideoIndex := (currentVideoIndex + 1) % |playlist|;
    }

    /** `toggleVideoSelector`. */
    method ToggleVideoSelector()
      modifies this
      ensures isVideoSelectorOpen == !old(isVideoSelectorOpen)
      ensures currentVideoIndex == old(currentVideoIndex)
    {
      isVideoSelectorOpen := !isVideoSelectorOpen;
    }

    /** `closeVideoSelector`. */
    method CloseVideoSelector()
      modifies this
      ensures !isVideoSelectorOpen
      ensures currentVideoIndex == old(currentVideoIndex)
    {
      isVideoSelectorOpen := false;
    }
  }
}
