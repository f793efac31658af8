/**
 The global radio player: stations are sub-directories of the music folder,
 a station's playlist is its playable files in a shuffled order, and the
 player steps through the playlist with wrap-around.

 VLC is reduced to whether a player exists and whether it is playing; the
 shuffle is `random.shuffle` driven by draws the caller supplies, and track
 metadata is the file's stem.
 */
module Radio {
  import opened Wrappers
  import opened Sorting

  /** `Path(name).suffix`: from the last dot on, unless that dot starts the
      name or ends it. */
  function Suffix(name: string): (s: string)
    ensures |s| <= |name| && s == name[|name| - |s|..]
    ensures s != "" ==> s[0] == '.' && '.' !in s[1..] && |s| >= 2 && |s| < |name|
  {
    var i := LastDot(name, |name|);
    if 0 < i < |name| - 1 then name[i..] else ""
  }

  /** `Path(name).stem`: the name without its suffix. */
  function Stem(name: string): (t: string)
    ensures t + Suffix(name) == name
  {
    name[..|name| - |Suffix(name)|]
  }

  /** The index of the last '.' in `name[..end]`, or -1. */
  function LastDot(name: string, end: nat): (i: int)
    requires end <= |name|
    ensures -1 <= i < end
    ensures i >= 0 ==> name[i] == '.' && '.' !in name[i + 1..end]
    ensures i == -1 ==> '.' !in name[..end]
  {
    if end == 0 then -1
    else if name[end - 1] == '.' then end - 1
    else LastDot(name, end - 1)
  }

  /** `SUPPORTED_EXTENSIONS`, compared with the lower-cased suffix. */
  predicate Playable(name: string) {
    LowerAscii(Suffix(name)) in [".mp3", ".ogg", ".wav", ".m4a", ".flac"]
  }

  function LowerAscii(s: string): (r: string)
    ensures |r| == |s|
  {
    if |s| == 0 then ""
    else [if 'A' <= s[0] <= 'Z' then (s[0] as int + 32) as char else s[0]] + LowerAscii(s[1..])
  }

  /** An entry of a station directory. */
  datatype DirEntry = DirEntry(name: string, isFile: bool)

  /** The files of a station the player accepts, sorted by name (before the
      shuffle). */
  function Candidates(entries: seq<DirEntry>): seq<string> {
    SortBy(PlayableFiles(entries), s => Str(s), false)
  }

  function PlayableFiles(entries: seq<DirEntry>): (fs: seq<string>)
    ensures |fs| <= |entries|
    ensures forall f :: f in fs ==> Playable(f)
  {
    if |entries| == 0 then []
    else
      var rest := PlayableFiles(entries[1..]);
      if entries[0].isFile && Playable(entries[0].name) then [entries[0].name] + rest else rest
  }

  /** The playlist candidates are exactly the playable files of the station,
      each as often as it is listed. */
  lemma CandidatesArePlayableFiles(entries: seq<DirEntry>)
    ensures multiset(Candidates(entries)) == multiset(PlayableFiles(entries))
    ensures forall f :: f in Candidates(entries) ==> Playable(f)
  {
    SortByPerm(PlayableFiles(entries), s => Str(s), false);
    forall f | f in Candidates(entries) ensures Playable(f) {
      assert f in multiset(Candidates(entries));
    }
  }

  /** The player's state. `ready` stands for an existing VLC player. */
  datatype Player = Player(
    ready: bool,
    stations: seq<string>,
    station: int,
    playlist: seq<string>,
    track: int,
    title: string,
    playing: bool)

  function InitialPlayer(ready: bool, stations: seq<string>): (p: Player)
    ensures p.station == -1 && p.track == -1 && p.playlist == [] && !p.playing
  {
    Player(ready, stations, -1, [], -1, "...", false)
  }

  /** `radio_play_track`: only with a player and a track index inside the
      playlist; the title shows the file's stem until metadata arrives. */
  function PlayTrack(p: Player): (r: Player)
    ensures r.playlist == p.playlist && r.track == p.track && r.station == p.station && r.stations == p.stations
    ensures r.ready == p.ready
    ensures (p.ready && 0 <= p.track < |p.playlist|) ==> r.playing && r.title == Stem(p.playlist[p.track])
    ensures !(p.ready && 0 <= p.track < |p.playlist|) ==> r == p
  {
    if !p.ready || |p.playlist| == 0 || !(0 <= p.track < |p.playlist|) then p
    else p.(title := Stem(p.playlist[p.track]), playing := true)
  }

  /** `random.shuffle`: from the last position down to the second, exchange
      position `i` with `rand(i) % (i + 1)`; `rand(i)` stands for the
      generator's draw at that step. */
  function Shuffle(s: seq<string>, rand: int -> int): (r: seq<string>)
    ensures |r| == |s| && multiset(r) == multiset(s)
  {
    ShuffleDown(s, |s| - 1, rand)
  }

  function ShuffleDown(s: seq<string>, i: int, rand: int -> int): (r: seq<string>)
    requires i < |s|
    ensures |r| == |s| && multiset(r) == multiset(s)
    decreases i
  {
    if i < 1 then s
    else
      var j := rand(i) % (i + 1);
      var t := Swap(s, i, j);
      SwapKeepsBag(s, i, j);
      ShuffleDown(t, i - 1, rand)
  }

  /** Draws that always pick the current position exchange nothing: the
      shuffle then keeps the sorted order. */
  lemma {:induction false} ShuffleWithoutExchanges(s: seq<string>, i: int, rand: int -> int)
    requires i < |s|
    requires forall k :: rand(k) == k
    ensures ShuffleDown(s, i, rand) == s
    decreases i
  {
    if i >= 1 {
      assert rand(i) % (i + 1) == i;
      assert Swap(s, i, i) == s;
      ShuffleWithoutExchanges(s, i - 1, rand);
    }
  }

  /** The playlist a station's listing gives: its candidates shuffled, or
      nothing when listing the directory raised. */
  function LoadPlaylist(listing: Option<seq<DirEntry>>, rand: int -> int): (list: seq<string>)
    ensures listing.None? ==> list == []
    ensures listing.Some? ==> multiset(list) == multiset(PlayableFiles(listing.value))
    ensures forall f :: f in list ==> Playable(f)
  {
    match listing
    case None => []
    case Some(entries) =>
      CandidatesArePlayableFiles(entries);
      var list := Shuffle(Candidates(entries), rand);
      assert forall f :: f in list ==> f in multiset(list);
      list
  }

  /** `radio_select_station(idx)`. `listing` is the station directory's
      entries, or `None` when listing it raised; `rand` gives the shuffle's
      draws. */
  function SelectStation(p: Player, idx: int, listing: Option<seq<DirEntry>>, rand: int -> int): (r: Player)
    ensures !p.ready || !(0 <= idx < |p.stations|) ==> r == p
    ensures p.ready && 0 <= idx < |p.stations| ==>
      && r.station == idx && r.stations == p.stations && r.ready
      && (listing.None? ==> r.playlist == [])
      && (listing.Some? ==> multiset(r.playlist) == multiset(PlayableFiles(listing.value)))
      && (r.playlist != [] ==> r.track == 0 && r.playing && r.title == Stem(r.playlist[0]))
      && (r.playlist == [] ==> r.track == -1 && !r.playing)
      && (listing.Some? && PlayableFiles(listing.value) == [] ==> r.title == "Station is empty")
  {
    if !p.ready || !(0 <= idx < |p.stations|) then p
    else
      var stopped := p.(playing := false, station := idx);
      var list := LoadPlaylist(listing, rand);
      if listing.None? then stopped.(playlist := [], track := -1)
      else if |list| > 0 then PlayTrack(stopped.(playlist := list, track := 0))
      else stopped.(playlist := [], track := -1, title := "Station is empty")
  }

  /** A selected station plays only its own playable files, every one of them,
      and is empty exactly when it has none. */
  lemma SelectStationLoadsStation(p: Player, idx: int, entries: seq<DirEntry>, rand: int -> int)
    requires p.ready && 0 <= idx < |p.stations|
    ensures var r := SelectStation(p, idx, Some(entries), rand);
      && (forall f :: f in r.playlist <==> f in PlayableFiles(entries))
      && (r.playlist == [] <==> PlayableFiles(entries) == [])
      && (forall f :: f in r.playlist ==> Playable(f))
  {
    var r := SelectStation(p, idx, Some(entries), rand);
    assert multiset(r.playlist) == multiset(PlayableFiles(entries));
    forall f ensures f in r.playlist <==> f in PlayableFiles(entries) {
      assert f in r.playlist <==> f in multiset(r.playlist);
      assert f in PlayableFiles(entries) <==> f in multiset(PlayableFiles(entries));
    }
    if r.playlist == [] {
      assert |multiset(PlayableFiles(entries))| == 0;
    }
  }

  /** With draws that exchange nothing, the playlist is the sorted candidate
      list. */
  lemma UnshuffledStation(p: Player, idx: int, entries: seq<DirEntry>, rand: int -> int)
    requires p.ready && 0 <= idx < |p.stations|
    requires forall k :: rand(k) == k
    ensures SelectStation(p, idx, Some(entries), rand).playlist == Candidates(entries)
  {
    ShuffleWithoutExchanges(Candidates(entries), |Candidates(entries)| - 1, rand);
  }

  /** `radio_toggle_play_pause`: with nothing loaded and nothing playing it
      starts the first station, if there is one; otherwise it toggles pause. */
  function TogglePlayPause(p: Player, listing: Option<seq<DirEntry>>, rand: int -> int): (r: Player)
    ensures !p.ready ==> r == p
    ensures p.ready && !p.playing && p.playlist == [] ==>
      r == (if |p.stations| > 0 then SelectStation(p, 0, listing, rand) else p)
    ensures p.ready && (p.playing || p.playlist != []) ==> r == p.(playing := !p.playing)
  {
    if !p.ready then p
    else if !p.playing && |p.playlist| == 0 then
      if |p.stations| > 0 then SelectStation(p, 0, listing, rand) else p
    else p.(playing := !p.playing)
  }

  /** `radio_next_track`. */
  function NextTrack(p: Player): (r: Player)
    ensures !p.ready || p.playlist == [] ==> r == p
  {
    if !p.ready || |p.playlist| == 0 then p
    else PlayTrack(p.(track := NextIndex(p.track, |p.playlist|)))
  }

  /** `radio_prev_track`. */
  function PrevTrack(p: Player): (r: Player)
    ensures !p.ready || p.playlist == [] ==> r == p
  {
    if !p.ready || |p.playlist| == 0 then p
    else PlayTrack(p.(track := PrevIndex(p.track, |p.playlist|)))
  }

  /** Stepping keeps the playlist, lands inside it whatever the starting index
      (the -1 of a rebuilt player included), and plays the track it lands on. */
  lemma StepInRange(p: Player)
    requires p.ready && p.playlist != []
    ensures 0 <= NextTrack(p).track < |p.playlist| && NextTrack(p).playlist == p.playlist
    ensures 0 <= PrevTrack(p).track < |p.playlist| && PrevTrack(p).playlist == p.playlist
    ensures NextTrack(p).playing && NextTrack(p).title == Stem(p.playlist[NextTrack(p).track])
    ensures PrevTrack(p).playing && PrevTrack(p).title == Stem(p.playlist[PrevTrack(p).track])
  {
  }

  /** `(i + 1) % n`. */
  function NextIndex(i: int, n: int): (j: int)
    requires n > 0
    ensures 0 <= j < n
  {
    (i + 1) % n
  }

  /** `(i - 1 + n) % n`. */
  function PrevIndex(i: int, n: int): (j: int)
    requires n > 0
    ensures 0 <= j < n
  {
    (i - 1 + n) % n
  }

  /** On indices inside the playlist the two steps are inverse. */
  lemma IndexStepsInverse(i: int, n: int)
    requires 0 <= i < n
    ensures PrevIndex(NextIndex(i, n), n) == i
    ensures NextIndex(PrevIndex(i, n), n) == i
  {
    if i + 1 < n {
      ModBelow(i + 1, n);
      ModAbove(i, n);
    } else {
      ModAbove(0, n);
      ModBelow(n - 1, n);
    }
    if i > 0 {
      ModAbove(i - 1, n);
      ModBelow(i, n);
    } else {
      ModBelow(n - 1, n);
      ModAbove(0, n);
    }
  }

  /** Previous undoes next, and next undoes previous, for an index inside the
      playlist. */
  lemma PrevNextInverse(p: Player)
    requires p.ready && 0 <= p.track < |p.playlist|
    ensures PrevTrack(NextTrack(p)).track == p.track
    ensures NextTrack(PrevTrack(p)).track == p.track
  {
    IndexStepsInverse(p.track, |p.playlist|);
  }

  lemma ModBelow(x: int, n: int)
    requires 0 <= x < n
    ensures x % n == x
  {
  }

  lemma ModAbove(x: int, n: int)
    requires 0 <= x < n
    ensures (x + n) % n == x
  {
  }
}

/**
 The radio page's display of the selected station: the station label, which
 station buttons are highlighted, and the remembered highlighted index.
 */
module RadioPage {
  import opened Wrappers
  import opened PyText
  import opened Sorting

  /** `_format_time`: negative times show as "0:00"; otherwise minutes, a
      colon and two-digit seconds. */
  function FormatTime(seconds: int): string {
    if seconds < 0 then "0:00"
    else NatToString(seconds / 60) + ":" + Pad2(seconds % 60)
  }

  /** Reading a displayed time back: whole minutes, a colon, two digits of
      seconds below 60. */
  function ReadTime(t: string): Option<int> {
    var parts := Split(t, ':');
    if |parts| == 2 && |parts[0]| >= 1 && |parts[1]| == 2
       && (forall i :: 0 <= i < |parts[0]| ==> IsDigit(parts[0][i]))
       && (forall i :: 0 <= i < 2 ==> IsDigit(parts[1][i]))
       && DigitsValue(parts[1]) < 60
    then Some(DigitsValue(parts[0]) * 60 + DigitsValue(parts[1]))
    else None
  }

  /** The display reads back as the time for non-negative input, and as zero
      for negative input. */
  lemma FormatTimeRoundTrip(seconds: int)
    ensures ReadTime(FormatTime(seconds)) == Some(if seconds < 0 then 0 else seconds)
  {
    if seconds < 0 {
      assert FormatTime(seconds) == "0" + ":" + "00";
      ReadTimeParts("0", "00", 0, 0);
    } else {
      var m: nat := seconds / 60;
      var s := seconds % 60;
      Pad2Digits(s);
      DigitsValueNatToString(m);
      ReadTimeParts(NatToString(m), Pad2(s), m, s);
    }
  }

  /** Minutes and two seconds digits below 60, joined by a colon, read back as
      the time they spell. */
  lemma ReadTimeParts(mm: string, ss: string, m: nat, s: nat)
    requires |mm| >= 1 && forall i :: 0 <= i < |mm| ==> IsDigit(mm[i])
    requires |ss| == 2 && forall i :: 0 <= i < 2 ==> IsDigit(ss[i])
    requires DigitsValue(mm) == m && DigitsValue(ss) == s && s < 60
    ensures ReadTime(mm + ":" + ss) == Some(m * 60 + s)
  {
    assert ':' !in mm;
    assert ':' !in ss;
    SplitTwo(mm, ss, ':');
  }

  /** What the page shows: the station label, the highlighted buttons (by
      index), the remembered index, and how many buttons exist. */
  datatype View = View(caption: string, green: set<int>, prev: Option<int>, buttons: nat)

  /** Only the remembered button can be highlighted. */
  predicate Tidy(v: View) {
    forall i :: i in v.green ==> v.prev == Some(i) && 0 <= i < v.buttons
  }

  /** `_update_station_selection_ui` for the controller's station index. */
  function UpdateSelection(v: View, idx: int, stations: seq<string>): (r: View)
    ensures r.buttons == v.buttons
  {
    if idx != -1 && 0 <= idx < |stations| then
      var v1 := v.(caption := Upper(stations[idx]));
      if v.prev != Some(idx) then
        var g := if v.prev.Some? && 0 <= v.prev.value < v.buttons then v.green - {v.prev.value} else v.green;
        var g2 := if 0 <= idx < v.buttons then g + {idx} else g;
        v1.(green := g2, prev := Some(idx))
      else v1
    else
      var v1 := v.(caption := "NO SIGNAL");
      if v.prev.Some? then
        v1.(green := if 0 <= v.prev.value < v.buttons then v.green - {v.prev.value} else v.green, prev := None)
      else v1
  }

  /** A valid station is shown by its upper-cased name and becomes the only
      highlighted button; any other index shows "NO SIGNAL" and nothing is
      highlighted or remembered. */
  lemma UpdateSelectionSpec(v: View, idx: int, stations: seq<string>)
    requires Tidy(v)
    ensures Tidy(UpdateSelection(v, idx, stations))
    ensures 0 <= idx < |stations| ==>
      && UpdateSelection(v, idx, stations).caption == Upper(stations[idx])
      && UpdateSelection(v, idx, stations).prev == Some(idx)
      && (0 <= idx < v.buttons ==> (v.prev != Some(idx) || idx in v.green) ==>
            UpdateSelection(v, idx, stations).green == {idx})
    ensures !(0 <= idx < |stations|) ==>
      && UpdateSelection(v, idx, stations).caption == "NO SIGNAL"
      && UpdateSelection(v, idx, stations).prev == None
      && UpdateSelection(v, idx, stations).green == {}
  {
    var r := UpdateSelection(v, idx, stations);
    if 0 <= idx < |stations| && 0 <= idx < v.buttons && (v.prev != Some(idx) || idx in v.green) {
      forall i | i in r.green ensures i == idx {
      }
    }
    if !(0 <= idx < |stations|) {
      forall i | i in r.green ensures false {
      }
    }
  }

  /** `_handle_vlc_offline_state`: every button back to normal, nothing
      remembered. */
  function Offline(v: View): (r: View)
    ensures r.green == {} && r.prev == None && Tidy(r)
    ensures r.caption == "RADIO OFFLINE" && r.buttons == v.buttons
  {
    v.(caption := "RADIO OFFLINE", green := {}, prev := None)
  }

  /** `scan_and_load_stations`: the station list is the sorted directory names;
      the buttons are rebuilt, then the selection is shown again. */
  function ScanStations(v: View, dirs: seq<string>, idx: int): (res: (seq<string>, View))
    ensures res.1.buttons == |res.0|
  {
    var stations := SortBy(dirs, s => Str(s), false);
    SortByPerm(dirs, s => Str(s), false);
    var n := |stations|;
    var rebuilt := v.(green := {}, prev := None, buttons := n);
    if |stations| == 0 then (stations, rebuilt.(caption := "NO STATIONS FOUND"))
    else (stations, UpdateSelection(rebuilt, idx, stations))
  }

  /** The scanned stations are the directory names in name order, and the
      rebuilt view highlights at most the selected station. */
  lemma ScanStationsSpec(v: View, dirs: seq<string>, idx: int)
    ensures multiset(ScanStations(v, dirs, idx).0) == multiset(dirs)
    ensures SortedBy(ScanStations(v, dirs, idx).0, s => Str(s), false)
    ensures Tidy(ScanStations(v, dirs, idx).1)
  {
    SortByPerm(dirs, s => Str(s), false);
    SortBySorted(dirs, s => Str(s), false);
    var stations := SortBy(dirs, s => Str(s), false);
    var n := |stations|;
    var rebuilt := v.(green := {}, prev := None, buttons := n);
    UpdateSelectionSpec(rebuilt, idx, stations);
  }
}
