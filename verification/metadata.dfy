/** The now-playing side of the player: the stream title a metadata
    message carries is split into artist and title, advertisements are
    recognised by their title, and the list of recently played tracks
    keeps the newest four distinct tracks, newest first. */
module Metadata {
  import opened Text

  /** `currentTrack`. The duration is always 0; `startTime` is the clock
      reading, in milliseconds, when the track was announced. */
  datatype Track = Track(title: string, artist: string, duration: int, startTime: int)

  /** The track shown while an advertisement plays. */
  const NoTrack := Track("", "", 0, 0)

  /** One entry of `recents`; `key` identifies the track. */
  datatype Recent = Recent(title: string, artist: string, cover: string, key: string)

  /** The state `processMetadata` updates. */
  datatype Player = Player(track: Track, recents: seq<Recent>)

  /** The longest the recently-played list gets. */
  const MaxRecents := 4

  // ---------------------------------------------------------------------
  // Advertisements and keys

  /** The lower-cased title contains "commercial" or "ad". Since "ad" is
      looked for anywhere in the title, any title with those two letters
      in a row counts, as in "Made A Way". */
  predicate IsAd(title: string) {
    Contains(Lower(title), "commercial") || Contains(Lower(title), "ad")
  }

  /** `${artist}-${title}`. */
  function TrackKey(artist: string, title: string): string {
    artist + "-" + title
  }

  /** `recents.some(t => t.key === key)`. */
  predicate HasKey(recents: seq<Recent>, key: string) {
    exists i :: 0 <= i < |recents| && recents[i].key == key
  }

  function Min(a: int, b: int): int {
    if a <= b then a else b
  }

  /** `unshift` the new entry, then `pop` the oldest when there are more
      than four. */
  function Remember(recents: seq<Recent>, entry: Recent): (r: seq<Recent>)
    ensures |recents| <= MaxRecents ==> |r| == Min(|recents| + 1, MaxRecents)
    ensures 0 < |r| <= |recents| + 1 && r[0] == entry
    ensures r[1..] == recents[..|r| - 1]
  {
    var grown := [entry] + recents;
    if |grown| > MaxRecents then grown[..|grown| - 1] else grown
  }

  // ---------------------------------------------------------------------
  // processMetadata

  /** `processMetadata` for the announced `artist` and `title`. The
      album cover the lookup returned and the clock reading `now` are
      parameters. An advertisement clears the shown track and leaves the
      list alone; any other track becomes the shown one and, unless its
      key is listed already, goes first in the list, the oldest entry
      dropping off beyond four. Afterwards the track's key is listed. */
  function ProcessMetadata(p: Player, artist: string, title: string, cover: string, now: int): (r: Player)
    ensures IsAd(title) ==> r == Player(NoTrack, p.recents)
    ensures !IsAd(title) ==> r.track == Track(title, artist, 0, now)
    ensures !IsAd(title) ==> HasKey(r.recents, TrackKey(artist, title))
    ensures HasKey(p.recents, TrackKey(artist, title)) ==> r.recents == p.recents
    ensures !IsAd(title) && !HasKey(p.recents, TrackKey(artist, title)) && |p.recents| <= MaxRecents ==>
      r.recents == [Recent(title, artist, cover, TrackKey(artist, title))]
                   + p.recents[..Min(|p.recents|, MaxRecents - 1)]
  {
    if IsAd(title) then
      Player(NoTrack, p.recents)
    else
      var key := TrackKey(artist, title);
      var track := Track(title, artist, 0, now);
      if HasKey(p.recents, key) then
        Player(track, p.recents)
      else
        var r := Remember(p.recents, Recent(title, artist, cover, key));
        assert r[0].key == key;
        Player(track, r)
  }

  /** The list holds at most four entries, each keyed by its own artist
      and title, no key twice. */
  predicate WellKept(recents: seq<Recent>) {
    && |recents| <= MaxRecents
    && (forall i :: 0 <= i < |recents| ==> recents[i].key == TrackKey(recents[i].artist, recents[i].title))
    && (forall i, j :: 0 <= i < j < |recents| ==> recents[i].key != recents[j].key)
  }

  /** `processMetadata` keeps the list well kept. */
  lemma RecentsStayWellKept(p: Player, artist: string, title: string, cover: string, now: int)
    requires WellKept(p.recents)
    ensures WellKept(ProcessMetadata(p, artist, title, cover, now).recents)
  {
    var r := ProcessMetadata(p, artist, title, cover, now).recents;
    var key := TrackKey(artist, title);
    if !IsAd(title) && !HasKey(p.recents, key) {
      assert forall i :: 1 <= i < |r| ==> r[i] == p.recents[i - 1];
      forall i, j | 0 <= i < j < |r|
        ensures r[i].key != r[j].key
      {
        if i == 0 {
          assert p.recents[j - 1].key != key;
        }
      }
    }
  }

  // ---------------------------------------------------------------------
  // A sequence of announcements

  datatype Announcement = Announcement(artist: string, title: string, cover: string, time: int)

  /** The entry the list gets for an announcement. */
  function Entry(a: Announcement): Recent {
    Recent(a.title, a.artist, a.cover, TrackKey(a.artist, a.title))
  }

  /** The player after the announcements, in the order they arrived. */
  function Feed(p: Player, events: seq<Announcement>): Player
    decreases |events|
  {
    if |events| == 0 then p
    else
      var last := events[|events| - 1];
      ProcessMetadata(Feed(p, events[..|events| - 1]), last.artist, last.title, last.cover, last.time)
  }

  /** The entries of the newest four announcements, newest first. */
  function Newest(events: seq<Announcement>): (r: seq<Recent>)
    ensures |r| == Min(|events|, MaxRecents)
  {
    seq(Min(|events|, MaxRecents), i requires 0 <= i < Min(|events|, MaxRecents) => Entry(events[|events| - 1 - i]))
  }

  /** From an empty list, announcements of distinct tracks that are not
      advertisements leave exactly the newest four in the list, newest
      first. */
  lemma {:induction false} FeedKeepsNewest(p: Player, events: seq<Announcement>)
    requires p.recents == []
    requires Distinct(events)
    ensures Feed(p, events).recents == Newest(events)
    decreases |events|
  {
    if |events| > 0 {
      var n := |events|;
      var init := events[..n - 1];
      var last := events[n - 1];
      DistinctPrefix(events);
      FeedKeepsNewest(p, init);
      var before := Feed(p, init).recents;
      assert !HasKey(before, Entry(last).key) by {
        forall i | 0 <= i < |before|
          ensures before[i].key != Entry(last).key
        {
          NewestAt(init, i);
          assert init[n - 2 - i] == events[n - 2 - i];
        }
      }
      assert Feed(p, events).recents == [Entry(last)] + before[..Min(|before|, MaxRecents - 1)];
      NewestStep(events);
    }
  }

  lemma NewestAt(events: seq<Announcement>, i: nat)
    requires i < Min(|events|, MaxRecents)
    ensures Newest(events)[i] == Entry(events[|events| - 1 - i])
  {
  }

  /** Announcements of tracks that are not advertisements, no two with
      the same key. */
  predicate Distinct(events: seq<Announcement>) {
    && (forall i :: 0 <= i < |events| ==> !IsAd(events[i].title))
    && (forall i, j :: 0 <= i < j < |events| ==> Entry(events[i]).key != Entry(events[j]).key)
  }

  lemma DistinctPrefix(events: seq<Announcement>)
    requires 0 < |events| && Distinct(events)
    ensures Distinct(events[..|events| - 1])
  {
    var init := events[..|events| - 1];
    assert forall i :: 0 <= i < |init| ==> init[i] == events[i];
  }

  /** The newest entries after one more announcement: its entry, then the
      earlier newest ones short of the oldest beyond four. */
  lemma NewestStep(events: seq<Announcement>)
    requires 0 < |events|
    ensures var before := Newest(events[..|events| - 1]);
      Newest(events) == [Entry(events[|events| - 1])] + before[..Min(|before|, MaxRecents - 1)]
  {
    var n := |events|;
    var before := Newest(events[..n - 1]);
    var r := [Entry(events[n - 1])] + before[..Min(|before|, MaxRecents - 1)];
    assert |r| == |Newest(events)|;
    forall i | 0 <= i < |r|
      ensures r[i] == Newest(events)[i]
    {
      if i > 0 {
        assert r[i] == before[i - 1];
      }
    }
  }

  /** Announcing a listed track again changes nothing but the shown
      track: it is not listed twice and the order stays. */
  lemma RepeatKeepsOrder(p: Player, a: Announcement, b: Announcement)
    requires !IsAd(a.title) && TrackKey(a.artist, a.title) == TrackKey(b.artist, b.title)
    ensures var once := ProcessMetadata(p, a.artist, a.title, a.cover, a.time);
      ProcessMetadata(once, b.artist, b.title, b.cover, b.time).recents == once.recents
  {
  }

  /** Keys join artist and title with a hyphen, so two different tracks
      can share one: "a-b" by "c" and "a" by "b-c". */
  lemma KeyCollision()
    ensures TrackKey("a-b", "c") == TrackKey("a", "b-c")
  {
  }

  /** "Made A Way" is taken for an advertisement: its lower-cased form
      holds "ad" at position 1. */
  lemma AdInsideWord()
    ensures IsAd("Made A Way")
  {
    var t := Lower("Made A Way");
    assert t[1..3] == "ad";
    assert OccursAt(t, "ad", 1);
  }

  /** The text `t` spells the lower-case word `w` at position `j`, in any
      letter case. */
  predicate SpellsAt(t: string, w: string, j: nat) {
    j + |w| <= |t| && Lower(t[j..j + |w|]) == w
  }

  /** A title is taken for an advertisement exactly when it spells
      "commercial" or "ad" somewhere, in any letter case. */
  lemma IsAdMeans(t: string)
    ensures IsAd(t) <==> (exists j: nat :: SpellsAt(t, "commercial", j)) || (exists j: nat :: SpellsAt(t, "ad", j))
  {
    ContainsMeans(Lower(t), "commercial");
    ContainsMeans(Lower(t), "ad");
    forall j: nat
      ensures SpellsAt(t, "commercial", j) <==> OccursAt(Lower(t), "commercial", j)
      ensures SpellsAt(t, "ad", j) <==> OccursAt(Lower(t), "ad", j)
    {
      SpellsIffOccurs(t, "commercial", j);
      SpellsIffOccurs(t, "ad", j);
    }
  }

  lemma SpellsIffOccurs(t: string, w: string, j: nat)
    ensures SpellsAt(t, w, j) <==> OccursAt(Lower(t), w, j)
  {
    if j + |w| <= |t| {
      assert Lower(t)[j..j + |w|] == Lower(t[j..j + |w|]);
    }
  }

  /** "commercial" in any letter case anywhere in the title makes it an
      advertisement, as in "COMMERCIAL BREAK" or "Commercial Break". */
  lemma CommercialAnyCase(t: string, j: nat)
    requires j + 10 <= |t| && Lower(t[j..j + 10]) == "commercial"
    ensures IsAd(t)
  {
    assert SpellsAt(t, "commercial", j);
    IsAdMeans(t);
  }

  // ---------------------------------------------------------------------
  // The stream title

  const Separator := " - "

  /** `parts[0]` and `parts.slice(1).join(" - ")` of the stream title split
      at " - ": everything before the first separator, and everything
      after it. */
  function StreamTitleParts(s: string): (r: (string, string))
    ensures IndexOf(s, Separator).None? ==> r == (s, "")
    ensures IndexOf(s, Separator).Some? ==>
      r == (s[..IndexOf(s, Separator).value], s[IndexOf(s, Separator).value + |Separator|..])
  {
    var parts := Split(s, Separator);
    SplitTail(s);
    (parts[0], Join(parts[1..], Separator))
  }

  /** The pieces after the first one join back into the text after the
      first separator. */
  lemma SplitTail(s: string)
    ensures var parts := Split(s, Separator);
      match IndexOf(s, Separator)
      case None => parts == [s]
      case Some(i) => parts[0] == s[..i] && Join(parts[1..], Separator) == s[i + |Separator|..]
  {
    match IndexOf(s, Separator)
    case None =>
    case Some(i) =>
      var rest := s[i + |Separator|..];
      assert Split(s, Separator)[1..] == Split(rest, Separator);
      JoinSplit(rest, Separator);
  }

  /** A title with the separator comes apart into an artist without it
      and the rest, which put back together with the separator give the
      title back; a title without it is all artist, with an empty title. */
  lemma StreamTitleRoundTrip(s: string)
    ensures var (artist, title) := StreamTitleParts(s);
      && (Contains(s, Separator) ==> artist + Separator + title == s && !Contains(artist, Separator))
      && (!Contains(s, Separator) ==> artist == s && title == "")
  {
    var (artist, title) := StreamTitleParts(s);
    if Contains(s, Separator) {
      var i := IndexOf(s, Separator).value;
      assert s[i..i + 3] == Separator;
      assert artist + Separator + title == s;
      forall j | 0 <= j
        ensures !OccursAt(artist, Separator, j)
      {
        if j + 3 <= |artist| {
          assert artist[j..j + 3] == s[j..j + 3];
          assert !OccursAt(s, Separator, j);
        }
      }
    }
  }

  /** The `onmessage` handler: an empty stream title is ignored, any other
      is split and processed. `cover` is what the cover lookup returned
      for the artist and title. */
  function OnStreamTitle(p: Player, streamTitle: string, cover: string, now: int): (r: Player)
    ensures streamTitle == "" ==> r == p
    ensures streamTitle != "" && !IsAd(StreamTitleParts(streamTitle).1) ==>
      r.track.artist + (if Contains(streamTitle, Separator) then Separator + r.track.title else "") == streamTitle
    ensures streamTitle != "" && IsAd(StreamTitleParts(streamTitle).1) ==> r.track == NoTrack && r.recents == p.recents
  {
    if streamTitle == "" then p
    else
      var (artist, title) := StreamTitleParts(streamTitle);
      StreamTitleRoundTrip(streamTitle);
      ProcessMetadata(p, artist, title, cover, now)
  }
}
