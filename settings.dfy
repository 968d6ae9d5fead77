/** The settings page's playlist editor (settings.js): recognising a video id
    in what the user typed, reordering by drag and drop, adding, removing and
    resetting. Saving to the server, the title lookup and the DOM are not
    modelled: a fetched title is a parameter. */
module Settings {

  import opened Wrappers
  import opened Records
  import Text

  /** `DEFAULT_PLAYLIST` of the settings page: a single video. */
  const DefaultPlaylist: seq<Video> := [Video("spJ5dqXi6ro", "Big mountain")]

  // ---------------------------------------------------------------------
  // extractVideoId
  // ---------------------------------------------------------------------

  /** `[a-zA-Z0-9_-]`. */
  predicate IsIdChar(c: char)
  {
    ('a' <= c <= 'z') || ('A' <= c <= 'Z') || ('0' <= c <= '9') || c == '_' || c == '-'
  }

  /** Eleven id characters. */
  predicate IsVideoId(s: string)
  {
    |s| == 11 && forall i :: 0 <= i < 11 ==> IsIdChar(s[i])
  }

  /** The alternatives of the URL pattern, in the order they are tried. */
  const UrlPrefixes: seq<string> := ["youtube.com/watch?v=", "youtu.be/", "youtube.com/embed/"]

  /** The first alternative that matches at `p` with an id after it. */
  function MatchAt(s: string, p: nat, k: nat): (r: Option<string>)
    requires p <= |s| && k <= |UrlPrefixes|
    decreases |UrlPrefixes| - k
    ensures r.Some? ==> IsVideoId(r.value)
  {
    if k == |UrlPrefixes| then None
    else
      var a := UrlPrefixes[k];
      var q := p + |a|;
      if a <= s[p..] && q + 11 <= |s| && IsVideoId(s[q..q + 11]) then Some(s[q..q + 11])
      else MatchAt(s, p, k + 1)
  }

  /** The leftmost match of the URL pattern at or after `p`. */
  function SearchFrom(s: string, p: nat): (r: Option<string>)
    requires p <= |s|
    decreases |s| - p
    ensures r.Some? ==> IsVideoId(r.value)
  {
    var m := MatchAt(s, p, 0);
    if m.Some? then m else if p == |s| then None else SearchFrom(s, p + 1)
  }

  /** `extractVideoId`: an id after one of the URL prefixes, else the whole
      (trimmed) input when it is itself an id, else null. */
  function ExtractVideoId(input: string): (r: Option<string>)
    ensures r.Some? ==> IsVideoId(r.value)
  {
    var t := Text.Trim(input);
    var urlMatch := SearchFrom(t, 0);
    if urlMatch.Some? then urlMatch
    else if IsVideoId(t) then Some(t)
    else None
  }

  /** Alternative `k` of the URL pattern matches at `q`: its prefix starts
      there and eleven id characters follow it. */
  predicate LinkAt(s: string, q: nat, k: nat)
  {
    && k < |UrlPrefixes| && q + |UrlPrefixes[k]| + 11 <= |s|
    && UrlPrefixes[k] <= s[q..]
    && IsVideoId(s[q + |UrlPrefixes[k]|..q + |UrlPrefixes[k]| + 11])
  }

  /** The id that match captures. */
  function LinkId(s: string, q: nat, k: nat): string
    requires LinkAt(s, q, k)
  {
    s[q + |UrlPrefixes[k]|..q + |UrlPrefixes[k]| + 11]
  }

  /** No alternative matches anywhere in `[lo, hi)`. */
  ghost predicate NoLinkIn(s: string, lo: nat, hi: nat)
  {
    forall q: nat, j: nat :: lo <= q < hi ==> !LinkAt(s, q, j)
  }

  /** `MatchAt` tries the alternatives from `k` on: it fails exactly when
      none matches at `p`, and otherwise captures the id of the first that
      does. */
  lemma {:induction false} MatchAtSound(s: string, p: nat, k: nat)
    requires p <= |s| && k <= |UrlPrefixes|
    decreases |UrlPrefixes| - k
    ensures MatchAt(s, p, k).None? <==> forall j: nat :: k <= j ==> !LinkAt(s, p, j)
    ensures MatchAt(s, p, k).Some? ==>
      exists j: nat :: k <= j && LinkAt(s, p, j) && MatchAt(s, p, k).value == LinkId(s, p, j)
        && forall i: nat :: k <= i < j ==> !LinkAt(s, p, i)
  {
    if k < |UrlPrefixes| {
      if LinkAt(s, p, k) {
        assert MatchAt(s, p, k).value == LinkId(s, p, k);
      } else {
        MatchAtSound(s, p, k + 1);
        forall j: nat | k <= j && LinkAt(s, p, j) ensures k + 1 <= j {
        }
      }
    }
  }

  /** `SearchFrom` is the leftmost match at or after `p`: it fails exactly
      when the pattern matches nowhere from `p` on, and otherwise captures
      the id of the first alternative at the leftmost position that matches. */
  lemma {:induction false} SearchFromSound(s: string, p: nat)
    requires p <= |s|
    decreases |s| - p
    ensures SearchFrom(s, p).None? <==> forall q: nat, j: nat :: p <= q ==> !LinkAt(s, q, j)
    ensures SearchFrom(s, p).Some? ==>
      exists q: nat, j: nat :: p <= q && LinkAt(s, q, j) && SearchFrom(s, p).value == LinkId(s, q, j)
        && NoLinkIn(s, p, q) && forall i: nat :: i < j ==> !LinkAt(s, q, i)
  {
    MatchAtSound(s, p, 0);
    if MatchAt(s, p, 0).None? {
      if p == |s| {
        forall q: nat, j: nat | p <= q ensures !LinkAt(s, q, j) {
        }
      } else {
        SearchFromSound(s, p + 1);
        forall q: nat, j: nat | p <= q && LinkAt(s, q, j) ensures p + 1 <= q {
        }
      }
    }
  }

  /** What `extractVideoId` returns: when the URL pattern matches in the
      trimmed input, the id of its leftmost match; otherwise the trimmed
      input when it is itself an id, and null when it is not. */
  lemma ExtractVideoIdMeaning(input: string)
    ensures var t, r := Text.Trim(input), ExtractVideoId(input);
      && (r.None? <==> (forall q: nat, j: nat :: !LinkAt(t, q, j)) && !IsVideoId(t))
      && ((forall q: nat, j: nat :: !LinkAt(t, q, j)) ==> r == if IsVideoId(t) then Some(t) else None)
      && ((exists q: nat, j: nat :: LinkAt(t, q, j)) ==>
           exists q: nat, j: nat :: LinkAt(t, q, j) && r == Some(LinkId(t, q, j))
             && NoLinkIn(t, 0, q) && forall i: nat :: i < j ==> !LinkAt(t, q, i))
  {
    SearchFromSound(Text.Trim(input), 0);
  }

  /** Text with neither a link nor an id in it gives null. */
  lemma NoIdInHello()
    ensures ExtractVideoId("hello") == None
  {
    var s := "hello";
    assert !Text.IsWhitespace(s[0]) && !Text.IsWhitespace(s[4]);
    TrimNoop(s);
    ExtractVideoIdMeaning(s);
  }

  /** All three prefixes contain a dot, which an id never does, so the URL
      pattern cannot match inside a bare id. */
  lemma NoUrlInId(s: string, p: nat)
    requires IsVideoId(s) && p <= |s|
    ensures SearchFrom(s, p) == None
    decreases |s| - p
  {
    forall k | 0 <= k < |UrlPrefixes| ensures !(UrlPrefixes[k] <= s[p..]) {
      var a := UrlPrefixes[k];
      var d := if k == 1 then 5 else 7;
      assert a[d] == '.';
      assert p + d < |s| ==> s[p..][d] == s[p + d] && IsIdChar(s[p + d]);
    }
    assert MatchAt(s, p, 0) == None;
    if p < |s| {
      NoUrlInId(s, p + 1);
    }
  }

  /** A bare id is recognised as itself. */
  lemma BareIdRecognised(id: string)
    requires IsVideoId(id)
    ensures ExtractVideoId(id) == Some(id)
  {
    assert IsIdChar(id[0]) && IsIdChar(id[10]);
    TrimNoop(id);
    NoUrlInId(id, 0);
  }

  /** Positions where no prefix can start (none of them begins there with
      a `y`) are skipped. */
  lemma SkipNoY(s: string, p: nat)
    requires p < |s| && s[p] != 'y'
    ensures SearchFrom(s, p) == SearchFrom(s, p + 1)
  {
    assert MatchAt(s, p, 2) == None;
    assert MatchAt(s, p, 1) == None;
    assert MatchAt(s, p, 0) == None;
  }

  lemma {:induction false} SkipPrefix(pre: string, s: string, p: nat)
    requires p <= |pre| <= |s| && pre == s[..|pre|]
    requires forall i :: 0 <= i < |pre| ==> pre[i] != 'y'
    ensures SearchFrom(s, p) == SearchFrom(s, |pre|)
    decreases |pre| - p
  {
    if p < |pre| {
      assert s[p] == pre[p];
      SkipNoY(s, p);
      SkipPrefix(pre, s, p + 1);
    }
  }

  /** At the start of `<prefix><id>` the pattern matches and captures the id. */
  lemma MatchAtLink(s: string, p: nat, k: nat, id: string)
    requires k < |UrlPrefixes| && IsVideoId(id)
    requires p <= |s| && s[p..] == UrlPrefixes[k] + id
    ensures MatchAt(s, p, 0) == Some(id)
  {
    var a := UrlPrefixes[k];
    assert p + |a| + 11 == |s|;
    assert s[p + |a|..p + |a| + 11] == id by {
      assert s[p + |a|..p + |a| + 11] == s[p..][|a|..];
    }
    var t := s[p..];
    if k == 1 {
      assert t[5] == '.' != UrlPrefixes[0][5];
      assert !(UrlPrefixes[0] <= t);
    } else if k == 2 {
      assert t[12] == 'e' != UrlPrefixes[0][12];
      assert !(UrlPrefixes[0] <= t);
      assert t[5] == 'b' != UrlPrefixes[1][5];
      assert !(UrlPrefixes[1] <= t);
    }
  }

  /** A link of the form `<pre><prefix><id>`, where `pre` holds no `y`
      (such as `https://www.`), gives its id. */
  lemma LinkRecognised(pre: string, k: nat, id: string)
    requires k < |UrlPrefixes| && IsVideoId(id)
    requires forall i :: 0 <= i < |pre| ==> pre[i] != 'y'
    requires pre == [] || !Text.IsWhitespace(pre[0])
    ensures ExtractVideoId(pre + UrlPrefixes[k] + id) == Some(id)
  {
    var a := UrlPrefixes[k];
    var s := pre + a + id;
    assert s[|s| - 1] == id[10];
    assert s[0] == if pre == [] then a[0] else pre[0];
    TrimNoop(s);
    LinkFound(s, pre, k, id);
  }

  lemma LinkFound(s: string, pre: string, k: nat, id: string)
    requires k < |UrlPrefixes| && IsVideoId(id)
    requires forall i :: 0 <= i < |pre| ==> pre[i] != 'y'
    requires s == pre + UrlPrefixes[k] + id
    ensures SearchFrom(s, 0) == Some(id)
  {
    var mid := UrlPrefixes[k] + id;
    assert s == pre + mid;
    ConcatSplit(pre, mid, s);
    SkipPrefix(pre, s, 0);
    MatchAtLink(s, |pre|, k, id);
    assert SearchFrom(s, |pre|) == Some(id);
  }

  lemma ConcatSplit(a: string, b: string, s: string)
    requires s == a + b
    ensures |a| <= |s| && s[..|a|] == a && s[|a|..] == b
  {
  }

  lemma TrimNoop(s: string)
    requires s != [] && !Text.IsWhitespace(s[0]) && !Text.IsWhitespace(s[|s| - 1])
    ensures Text.Trim(s) == s
  {
    assert Text.TrimStart(s) == s;
  }

  // ---------------------------------------------------------------------
  // List operations
  // ---------------------------------------------------------------------

  ghost predicate DistinctIds(p: seq<Video>)
  {
    forall i, j :: 0 <= i < j < |p| ==> p[i].id != p[j].id
  }

  predicate HasId(p: seq<Video>, id: string)
  {
    exists i :: 0 <= i < |p| && p[i].id == id
  }

  /** `splice(i, 1)` on an index inside the list. */
  function RemoveAt(s: seq<Video>, i: nat): (r: seq<Video>)
    requires i < |s|
    ensures |r| == |s| - 1
    ensures forall j :: 0 <= j < i ==> r[j] == s[j]
    ensures forall j :: i <= j < |r| ==> r[j] == s[j + 1]
  {
    s[..i] + s[i + 1..]
  }

  /** `const [moved] = splice(from, 1); splice(to, 0, moved)`. */
  function Move(s: seq<Video>, from: nat, to: nat): seq<Video>
    requires from < |s| && to < |s|
  {
    var rest := RemoveAt(s, from);
    rest[..to] + [s[from]] + rest[to..]
  }

  /** A move keeps the items: same length, same multiset. */
  lemma MovePermutes(s: seq<Video>, from: nat, to: nat)
    requires from < |s| && to < |s|
    ensures |Move(s, from, to)| == |s|
    ensures multiset(Move(s, from, to)) == multiset(s)
  {
    var rest := RemoveAt(s, from);
    var x := s[from];
    assert rest == s[..from] + s[from + 1..];
    assert s == s[..from] + [x] + s[from + 1..];
    assert multiset(s) == multiset(s[..from]) + multiset{x} + multiset(s[from + 1..]);
    assert multiset(rest) == multiset(s[..from]) + multiset(s[from + 1..]);
    assert rest == rest[..to] + rest[to..];
    assert multiset(rest) == multiset(rest[..to]) + multiset(rest[to..]);
    var m := Move(s, from, to);
    assert m == rest[..to] + [x] + rest[to..];
    assert multiset(m) == multiset(rest[..to]) + multiset{x} + multiset(rest[to..]);
    assert multiset(m) == multiset(rest) + multiset{x};
  }

  /** The moved item lands at `to`, and taking it out again leaves the
      others in their old relative order. */
  lemma MoveLands(s: seq<Video>, from: nat, to: nat)
    requires from < |s| && to < |s|
    ensures |Move(s, from, to)| == |s|
    ensures Move(s, from, to)[to] == s[from]
    ensures RemoveAt(Move(s, from, to), to) == RemoveAt(s, from)
  {
    var rest := RemoveAt(s, from);
    var m := Move(s, from, to);
    assert m[to] == s[from];
    assert RemoveAt(m, to) == m[..to] + m[to + 1..];
    assert m[..to] == rest[..to];
    assert m[to + 1..] == rest[to..];
    assert rest == rest[..to] + rest[to..];
  }

  /** Moving back undoes a move. */
  lemma MoveBack(s: seq<Video>, from: nat, to: nat)
    requires from < |s| && to < |s|
    ensures var m := Move(s, from, to); |m| == |s| && Move(m, to, from) == s
  {
    MoveLands(s, from, to);
    var m := Move(s, from, to);
    var rest := RemoveAt(s, from);
    assert RemoveAt(m, to) == rest;
    assert Move(m, to, from) == rest[..from] + [s[from]] + rest[from..];
    assert rest[..from] == s[..from];
    assert rest[from..] == s[from + 1..];
    assert s == s[..from] + [s[from]] + s[from + 1..];
  }

  /** Moving, removing, and appending a new id keep the ids distinct. */
  lemma MoveKeepsDistinct(s: seq<Video>, from: nat, to: nat)
    requires from < |s| && to < |s| && DistinctIds(s)
    ensures DistinctIds(Move(s, from, to))
  {
    MovePermutes(s, from, to);
    var m := Move(s, from, to);
    forall i, j | 0 <= i < j < |m| ensures m[i].id != m[j].id {
      assert m[i] in multiset(s) && m[j] in multiset(s);
      var a :| 0 <= a < |s| && s[a] == m[i];
      var b :| 0 <= b < |s| && s[b] == m[j];
      if a == b {
        MoveInjective(s, from, to, i, j);
      }
    }
  }

  /** The position in `s` of the item that a move puts at `k`. */
  function MoveSource(from: nat, to: nat, k: nat): nat
  {
    if k == to then from
    else
      var r := if k < to then k else k - 1;
      if r < from then r else r + 1
  }

  lemma MoveAt(s: seq<Video>, from: nat, to: nat, k: nat)
    requires from < |s| && to < |s| && k < |s|
    ensures |Move(s, from, to)| == |s| && MoveSource(from, to, k) < |s|
    ensures Move(s, from, to)[k] == s[MoveSource(from, to, k)]
  {
    var rest := RemoveAt(s, from);
    var m := Move(s, from, to);
    if k < to {
      assert m[k] == rest[k];
    } else if k > to {
      assert m[k] == rest[k - 1];
    }
  }

  /** Different positions of a move hold items from different positions. */
  lemma MoveInjective(s: seq<Video>, from: nat, to: nat, i: nat, j: nat)
    requires from < |s| && to < |s| && DistinctIds(s)
    requires i < j < |s|
    ensures Move(s, from, to)[i].id != Move(s, from, to)[j].id
  {
    MoveAt(s, from, to, i);
    MoveAt(s, from, to, j);
    assert MoveSource(from, to, i) != MoveSource(from, to, j);
  }

  lemma RemoveKeepsDistinct(s: seq<Video>, i: nat)
    requires i < |s| && DistinctIds(s)
    ensures DistinctIds(RemoveAt(s, i))
  {
    var r := RemoveAt(s, i);
    forall a, b | 0 <= a < b < |r| ensures r[a].id != r[b].id {
      var a' := if a < i then a else a + 1;
      var b' := if b < i then b else b + 1;
      assert r[a] == s[a'] && r[b] == s[b'];
    }
  }

  lemma AppendKeepsDistinct(s: seq<Video>, v: Video)
    requires DistinctIds(s) && !HasId(s, v.id)
    ensures DistinctIds(s + [v])
  {
  }

  /** `splice(index, 1)` for any integer index: a negative index counts from
      the end, and an index past the end removes nothing. */
  function SpliceOut(s: seq<Video>, index: int): (r: seq<Video>)
    ensures 0 <= index < |s| ==> r == RemoveAt(s, index)
    ensures index >= |s| ==> r == s
    ensures -|s| <= index < 0 ==> r == RemoveAt(s, |s| + index)
    ensures index < -|s| && |s| > 0 ==> r == RemoveAt(s, 0)
  {
    var start := if index < 0 then (if |s| + index < 0 then 0 else |s| + index) else index;
    if start < |s| then RemoveAt(s, start) else s
  }

  /** The title of a new item: the typed one, else the fetched one, else the id. */
  function ChooseTitle(typed: string, fetched: Option<string>, id: string): (r: string)
    ensures Text.Trim(typed) != "" ==> r == Text.Trim(typed)
    ensures Text.Trim(typed) == "" && fetched.Some? && fetched.value != "" ==> r == fetched.value
    ensures Text.Trim(typed) == "" && (fetched.None? || fetched.value == "") ==> r == id
  {
    var title := Text.Trim(typed);
    if title != "" then title
    else if fetched.Some? && fetched.value != "" then fetched.value
    else id
  }

  /** How `addVideo` ended. */
  datatype AddOutcome = EmptyUrl | NotAVideo | AlreadyPresent | Added

  /** Where the synchronous part of `addVideo` ends: it returns early, or
      it pushes at once (a title was typed), or it suspends at the `await`
      of the title lookup, with the id it will push when it resumes. */
  datatype AddStep = Stop(outcome: AddOutcome) | PushNow(video: Video) | Suspend(id: string)

  /** `addVideo` up to the `await` of `fetchVideoTitle`. */
  function AddPrefix(playlist: seq<Video>, urlInput: string, titleInput: string): (r: AddStep)
    ensures r.Suspend? <==>
      && Text.Trim(titleInput) == "" && Text.Trim(urlInput) != ""
      && ExtractVideoId(Text.Trim(urlInput)).Some? && !HasId(playlist, ExtractVideoId(Text.Trim(urlInput)).value)
    ensures r.Suspend? ==> r.id == ExtractVideoId(Text.Trim(urlInput)).value
    ensures r.PushNow? ==> !HasId(playlist, r.video.id)
  {
    var url := Text.Trim(urlInput);
    if url == "" then Stop(EmptyUrl)
    else
      var videoId := ExtractVideoId(url);
      if videoId.None? then Stop(NotAVideo)
      else if HasId(playlist, videoId.value) then Stop(AlreadyPresent)
      else if Text.Trim(titleInput) != "" then PushNow(Video(videoId.value, Text.Trim(titleInput)))
      else Suspend(videoId.value)
  }

  /** `addVideo` after the `await`, as written: the push does not look at
      the playlist again. */
  function ResumeAsWritten(playlist: seq<Video>, id: string, fetched: Option<string>): seq<Video>
  {
    playlist + [Video(id, ChooseTitle("", fetched, id))]
  }

  /** Two `addVideo` calls of one new link with a blank title, the second
      started (by Enter, which the disabled button does not stop) while the
      first awaits its title: both pass the duplicate check and both push,
      so the playlist ends with the id twice. */
  lemma OverlappingAddsDuplicate(p: seq<Video>, urlInput: string, f1: Option<string>, f2: Option<string>)
    requires DistinctIds(p)
    requires Text.Trim(urlInput) != "" && ExtractVideoId(Text.Trim(urlInput)).Some?
    requires !HasId(p, ExtractVideoId(Text.Trim(urlInput)).value)
    ensures AddPrefix(p, urlInput, "").Suspend?
    ensures var id := AddPrefix(p, urlInput, "").id;
      !DistinctIds(ResumeAsWritten(ResumeAsWritten(p, id, f1), id, f2))
  {
    assert Text.Trim("") == "";
    var id := AddPrefix(p, urlInput, "").id;
    var r := ResumeAsWritten(ResumeAsWritten(p, id, f1), id, f2);
    assert r[|p|].id == id == r[|p| + 1].id;
  }

  /** `addVideo` after the `await`, corrected: the duplicate check is made
      again against the playlist as it is when the title arrives. */
  function ResumeChecked(playlist: seq<Video>, id: string, fetched: Option<string>): (r: seq<Video>)
    ensures HasId(playlist, id) ==> r == playlist
    ensures !HasId(playlist, id) ==> r == playlist + [Video(id, ChooseTitle("", fetched, id))]
    ensures DistinctIds(playlist) ==> DistinctIds(r)
  {
    if HasId(playlist, id) then playlist
    else playlist + [Video(id, ChooseTitle("", fetched, id))]
  }

  /** With the check repeated, the same two overlapping calls add the id
      once and keep the ids distinct. */
  lemma OverlappingAddsChecked(p: seq<Video>, urlInput: string, f1: Option<string>, f2: Option<string>)
    requires DistinctIds(p)
    requires Text.Trim(urlInput) != "" && ExtractVideoId(Text.Trim(urlInput)).Some?
    requires !HasId(p, ExtractVideoId(Text.Trim(urlInput)).value)
    ensures var id := ExtractVideoId(Text.Trim(urlInput)).value;
      var r := ResumeChecked(ResumeChecked(p, id, f1), id, f2);
      DistinctIds(r) && r == p + [Video(id, ChooseTitle("", f1, id))]
  {
    var id := ExtractVideoId(Text.Trim(urlInput)).value;
    var once := ResumeChecked(p, id, f1);
    assert once[|p|].id == id;
    assert HasId(once, id);
  }

  /** What loading the user's configuration gave: the document's playlist
      and token fields, or a failure (no token, a failed request, a bad body). */
  datatype LoadOutcome = Loaded(playlist: Option<seq<Video>>, tvToken: Option<string>) | LoadFailed

  class PlaylistEditor {
    var playlist: seq<Video>
    var dragIndex: Option<int>
    var currentTvToken: Option<string>

    /** The page's initial state. */
    constructor ()
      ensures playlist == [] && dragIndex == None && currentTvToken == None
    {
      playlist := [];
      dragIndex := None;
      currentTvToken := None;
    }

    /** `loadPlaylist`: the stored playlist when the document has one (an
        empty list included), the default otherwise and on any failure. */
    method LoadPlaylist(outcome: LoadOutcome)
      modifies this
      ensures outcome.LoadFailed? ==> playlist == DefaultPlaylist && currentTvToken == old(currentTvToken)
      ensures outcome.Loaded? ==> playlist == outcome.playlist.GetOr(DefaultPlaylist)
      ensures outcome.Loaded? && outcome.tvToken.Some? && outcome.tvToken.value != "" ==> currentTvToken == outcome.tvToken
      ensures outcome.Loaded? && (outcome.tvToken.None? || outcome.tvToken.value == "") ==> currentTvToken == old(currentTvToken)
      ensures dragIndex == old(dragIndex)
    {
      match outcome
      case LoadFailed =>
        playlist := DefaultPlaylist;
      case Loaded(stored, token) =>
        playlist := if stored.Some? then stored.value else DefaultPlaylist;
        if token.Some? && token.value != "" {
          currentTvToken := token;
        }
    }

    /** `dragstart` on the item at `index`. */
    method DragStart(index: int)
      modifies this
      ensures dragIndex == Some(index) && playlist == old(playlist) && currentTvToken == old(currentTvToken)
    {
      dragIndex := Some(index);
    }

    /** `dragend`. */
    method DragEnd()
      modifies this
      ensures dragIndex == None && playlist == old(playlist) && currentTvToken == old(currentTvToken)
    {
      dragIndex := None;
    }

    /** The `drop` handler on the item at `dropIndex`. Both indices are
        positions of rendered items. */
    method Drop(dropIndex: int)
      requires 0 <= dropIndex < |playlist|
      requires dragIndex.Some? ==> 0 <= dragIndex.value < |playlist|
      modifies this
      ensures dragIndex.None? || dragIndex.value == dropIndex ==> playlist == old(playlist)
      ensures old(dragIndex).Some? && old(dragIndex).value != dropIndex ==>
        playlist == Move(old(playlist), old(dragIndex).value, dropIndex)
      ensures dragIndex == old(dragIndex) && currentTvToken == old(currentTvToken)
      ensures old(DistinctIds(playlist)) ==> DistinctIds(playlist)
    {
      if dragIndex.None? || dragIndex.value == dropIndex {
        return;
      }
      var from := dragIndex.value;
      var moved := playlist[from];
      playlist := playlist[..from] + playlist[from + 1..];
      playlist := playlist[..dropIndex] + [moved] + playlist[dropIndex..];
      if DistinctIds(old(playlist)) {
        MoveKeepsDistinct(old(playlist), from, dropIndex);
      }
    }

    /** `addVideo` with the text of the two inputs; `fetched` is the title
        the lookup service returned, if any. */
    method AddVideo(urlInput: string, titleInput: string, fetched: Option<string>) returns (outcome: AddOutcome)
      modifies this
      ensures Text.Trim(urlInput) == "" ==> outcome == EmptyUrl
      ensures Text.Trim(urlInput) != "" && ExtractVideoId(Text.Trim(urlInput)).None? ==> outcome == NotAVideo
      ensures (Text.Trim(urlInput) != "" && ExtractVideoId(Text.Trim(urlInput)).Some?
               && HasId(old(playlist), ExtractVideoId(Text.Trim(urlInput)).value)) ==> outcome == AlreadyPresent
      ensures outcome != Added ==> playlist == old(playlist)
      ensures outcome == Added ==> var id := ExtractVideoId(Text.Trim(urlInput));
        id.Some? && !HasId(old(playlist), id.value)
        && playlist == old(playlist) + [Video(id.value, ChooseTitle(titleInput, fetched, id.value))]
      ensures old(DistinctIds(playlist)) ==> DistinctIds(playlist)
      ensures dragIndex == old(dragIndex) && currentTvToken == old(currentTvToken)
    {
      var url := Text.Trim(urlInput);
      if url == "" {
        return EmptyUrl;
      }
      var videoId := ExtractVideoId(url);
      if videoId.None? {
        return NotAVideo;
      }
      if HasId(playlist, videoId.value) {
        return AlreadyPresent;
      }
      var title := ChooseTitle(titleInput, fetched, videoId.value);
      if DistinctIds(playlist) {
        AppendKeepsDistinct(playlist, Video(videoId.value, title));
      }
      playlist := playlist + [Video(videoId.value, title)];
      return Added;
    }

    /** `removeVideo(index)`. */
    method RemoveVideo(index: int)
      modifies this
      ensures playlist == SpliceOut(old(playlist), index)
      ensures old(DistinctIds(playlist)) ==> DistinctIds(playlist)
      ensures dragIndex == old(dragIndex) && currentTvToken == old(currentTvToken)
    {
      var start := if index < 0 then (if |playlist| + index < 0 then 0 else |playlist| + index) else index;
      if start < |playlist| {
        if DistinctIds(playlist) {
          RemoveKeepsDistinct(playlist, start);
        }
        playlist := playlist[..start] + playlist[start + 1..];
      }
    }

    /** `resetPlaylist`. */
    method ResetPlaylist()
      modifies this
      ensures playlist == DefaultPlaylist
      ensures dragIndex == old(dragIndex) && currentTvToken == old(currentTvToken)
    {
      playlist := DefaultPlaylist;
    }
  }
}
