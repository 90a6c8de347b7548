/** The player's transport rules: play/pause, next/prev, the loop and shuffle
    toggles, what happens when a track ends, the `canplay` gate on the latest
    request, the placeholder track, and `formatTime`. Rendering, seeking and
    volume are not part of this model. */
module Player {
  import opened Wrappers
  import opened Text

  datatype PlayerState = Playing | Paused | Loading

  datatype LoopMode = Off | All | One

  /** A track as loaded from the listing; `src` may be missing. */
  datatype Track = Track(id: int, title: string, artist: string, filename: string, src: Option<string>)

  /** The track shown while nothing is loaded. */
  const Placeholder := Track(0, "Loading...", "", "", Some(""))

  /** `tracks[currentTrackIndex] || placeholder`. */
  function CurrentTrack(tracks: seq<Track>, index: nat): Track {
    if index < |tracks| then tracks[index] else Placeholder
  }

  /** `!!track.src`: present and non-empty. */
  predicate HasSrc(t: Track) {
    t.src.Some? && t.src.value != ""
  }

  /** The transport's state: the player state, the current index, the latest
      requested index, the loop mode, shuffle, and the audio position in
      seconds. */
  datatype Transport = Transport(state: PlayerState, index: nat, latest: nat, loopMode: LoopMode, shuffle: bool, position: int)

  // ---------------------------------------------------------------------------
  // Transitions

  function NextIndex(i: nat, n: nat): nat
    requires n > 0
  {
    (i + 1) % n
  }

  function PrevIndex(i: nat, n: nat): nat
    requires n > 0
  {
    (i - 1 + n) % n
  }

  /** `handlePlayPause`. */
  function PlayPause(t: Transport, tracks: seq<Track>): Transport {
    if t.state == Loading || !HasSrc(CurrentTrack(tracks, t.index)) then t
    else if t.state == Playing then t.(state := Paused)
    else t.(state := Loading, latest := t.index)
  }

  /** `handleNext`: the next index becomes both current and the latest request. */
  function Next(t: Transport, n: nat): Transport {
    if n == 0 then t
    else t.(state := Loading, index := NextIndex(t.index, n), latest := NextIndex(t.index, n))
  }

  /** `handlePrev`. */
  function Prev(t: Transport, n: nat): Transport {
    if n == 0 then t
    else t.(state := Loading, index := PrevIndex(t.index, n), latest := PrevIndex(t.index, n))
  }

  /** `handleLoopToggle`. */
  function ToggleLoop(m: LoopMode): LoopMode {
    match m
    case Off => All
    case All => One
    case One => Off
  }

  /** `handleShuffleToggle`. */
  function ToggleShuffle(t: Transport): Transport {
    t.(shuffle := !t.shuffle)
  }

  /** The first draw different from the current index, or the current index
      when there is none. */
  function FirstOther(draws: seq<nat>, current: nat): nat
    decreases |draws|
  {
    if draws == [] then current
    else if draws[0] != current then draws[0]
    else FirstOther(draws[1..], current)
  }

  /** The index the shuffle rule moves to: with more than one track, the
      first random draw different from the current index. */
  function ShuffleIndex(current: nat, n: nat, draws: seq<nat>): nat {
    if n > 1 then FirstOther(draws, current) else current
  }

  /** `handleEnded`, given the random draws `Math.floor(Math.random() * n)`. */
  function Ended(t: Transport, tracks: seq<Track>, draws: seq<nat>): Transport {
    var n := |tracks|;
    if n == 0 then t
    else if t.loopMode == One then t.(position := 0)
    else if t.shuffle then t.(index := ShuffleIndex(t.index, n, draws), state := Playing)
    else if t.loopMode == All then
      if t.index == n - 1 then t.(index := 0, state := Playing) else Next(t, n)
    else
      if t.index < n - 1 then Next(t, n) else t.(state := Paused)
  }

  /** `handleCanPlay`: play only the latest requested track. */
  function CanPlay(t: Transport, tracks: seq<Track>): Transport {
    if !HasSrc(CurrentTrack(tracks, t.index)) then t
    else if t.state == Loading && t.latest == t.index then t.(state := Playing)
    else t
  }

  /** The track-change effect: a change while playing becomes a new request. */
  function TrackChanged(t: Transport): Transport {
    if t.state == Playing then t.(state := Loading, latest := t.index) else t
  }

  /** The `while` loop of the shuffle rule, over a finite stream of draws
      (each below `n`, as `Math.floor(Math.random() * n)` is). */
  method PickShuffleIndex(current: nat, n: nat, draws: seq<nat>) returns (next: nat)
    requires forall i :: 0 <= i < |draws| ==> draws[i] < n
    requires n > 1 ==> exists i :: 0 <= i < |draws| && draws[i] != current
    ensures next == ShuffleIndex(current, n, draws)
    ensures n > 1 ==> next != current && next < n
  {
    next := current;
    var k := 0;
    assert draws[0..] == draws;
    while n > 1 && next == current
      invariant 0 <= k <= |draws|
      invariant next == current ==> forall j :: 0 <= j < k ==> draws[j] == current
      invariant FirstOther(draws, current) == if next == current then FirstOther(draws[k..], current) else next
      invariant next != current ==> next < n
      invariant n <= 1 ==> next == current
      decreases |draws| - k, if next == current then 1 else 0
    {
      if k == |draws| {
        assert false;
      }
      next := draws[k];
      assert draws[k..][1..] == draws[k + 1..];
      k := k + 1;
    }
  }

  // ---------------------------------------------------------------------------
  // The player as an object

  class MusicPlayer {
    var state: PlayerState
    var index: nat
    var latest: nat
    var loopMode: LoopMode
    var shuffle: bool
    var position: int
    var tracks: seq<Track>

    function State(): Transport
      reads this
    {
      Transport(state, index, latest, loopMode, shuffle, position)
    }

    /** Paused at index 0, loop off, no shuffle, no tracks yet. */
    constructor ()
      ensures State() == Transport(Paused, 0, 0, Off, false, 0) && tracks == []
    {
      state, index, latest, loopMode, shuffle, position, tracks := Paused, 0, 0, Off, false, 0, [];
    }

    /** The listing fetched on mount (an empty list when the fetch fails). */
    method SetTracks(ts: seq<Track>)
      modifies this
      ensures tracks == ts && State() == old(State())
    {
      tracks := ts;
    }

    method HandlePlayPause()
      modifies this
      ensures State() == PlayPause(old(State()), tracks) && tracks == old(tracks)
    {
      if state == Loading || !HasSrc(CurrentTrack(tracks, index)) {
        return;
      }
      if state == Playing {
        state := Paused;
      } else {
        state := Loading;
        latest := index;
      }
    }

    method HandleNext()
      modifies this
      ensures State() == Next(old(State()), |tracks|) && tracks == old(tracks)
    {
      if |tracks| == 0 {
        return;
      }
      state := Loading;
      var nextIndex := (index + 1) % |tracks|;
      latest := nextIndex;
      index := nextIndex;
    }

    method HandlePrev()
      modifies this
      ensures State() == Prev(old(State()), |tracks|) && tracks == old(tracks)
    {
      if |tracks| == 0 {
        return;
      }
      state := Loading;
      var prevIndex := (index - 1 + |tracks|) % |tracks|;
      latest := prevIndex;
      index := prevIndex;
    }

    method HandleLoopToggle()
      modifies this
      ensures State() == old(State()).(loopMode := ToggleLoop(old(loopMode))) && tracks == old(tracks)
    {
      loopMode := if loopMode == Off then All else if loopMode == All then One else Off;
    }

    method HandleShuffleToggle()
      modifies this
      ensures State() == ToggleShuffle(old(State())) && tracks == old(tracks)
    {
      shuffle := !shuffle;
    }

    method HandleEnded(draws: seq<nat>)
      requires forall i :: 0 <= i < |draws| ==> draws[i] < |tracks|
      requires loopMode != One && shuffle && |tracks| > 1 ==> exists i :: 0 <= i < |draws| && draws[i] != index
      modifies this
      ensures State() == Ended(old(State()), tracks, draws) && tracks == old(tracks)
    {
      if |tracks| == 0 {
        return;
      }
      if loopMode == One {
        position := 0;
      } else if shuffle {
        var nextIndex := PickShuffleIndex(index, |tracks|, draws);
        index := nextIndex;
        state := Playing;
      } else if loopMode == All {
        if index == |tracks| - 1 {
          index := 0;
          state := Playing;
        } else {
          HandleNext();
        }
      } else {
        if index < |tracks| - 1 {
          HandleNext();
        } else {
          state := Paused;
        }
      }
    }

    method HandleCanPlay()
      modifies this
      ensures State() == CanPlay(old(State()), tracks) && tracks == old(tracks)
    {
      if !HasSrc(CurrentTrack(tracks, index)) {
        return;
      }
      if state == Loading && latest == index {
        state := Playing;
      }
    }

    method HandleTrackChange()
      modifies this
      ensures State() == TrackChanged(old(State())) && tracks == old(tracks)
    {
      if state == Playing {
        state := Loading;
        latest := index;
      }
    }
  }

  // ---------------------------------------------------------------------------
  // Properties of the transitions

  /** An out-of-range index shows the placeholder, which cannot be played. */
  lemma PlaceholderOutOfRange(tracks: seq<Track>, index: nat)
    requires index >= |tracks|
    ensures CurrentTrack(tracks, index) == Placeholder && !HasSrc(CurrentTrack(tracks, index))
  {
  }

  /** Next moves one forward and wraps from the last index to the first; the
      result is always a valid index. */
  lemma NextIndexSpec(i: nat, n: nat)
    requires n > 0
    ensures NextIndex(i, n) < n
    ensures i + 1 < n ==> NextIndex(i, n) == i + 1
    ensures i == n - 1 ==> NextIndex(i, n) == 0
  {
  }

  /** Prev moves one back and wraps from the first index to the last. */
  lemma PrevIndexSpec(i: nat, n: nat)
    requires n > 0
    ensures PrevIndex(i, n) < n
    ensures 0 < i <= n ==> PrevIndex(i, n) == i - 1
    ensures i == 0 ==> PrevIndex(i, n) == n - 1
  {
  }

  /** On valid indices, prev undoes next and next undoes prev. */
  lemma PrevNextInverse(i: nat, n: nat)
    requires i < n
    ensures PrevIndex(NextIndex(i, n), n) == i
    ensures NextIndex(PrevIndex(i, n), n) == i
  {
    NextIndexSpec(i, n);
    PrevIndexSpec(i, n);
    PrevIndexSpec(NextIndex(i, n), n);
    NextIndexSpec(PrevIndex(i, n), n);
  }

  /** The loop mode cycles off, all, one: three toggles are the identity and
      no fewer are. */
  lemma LoopCycle(m: LoopMode)
    ensures ToggleLoop(Off) == All && ToggleLoop(All) == One && ToggleLoop(One) == Off
    ensures ToggleLoop(ToggleLoop(ToggleLoop(m))) == m
    ensures ToggleLoop(m) != m && ToggleLoop(ToggleLoop(m)) != m
  {
  }

  /** Toggling shuffle twice restores the transport, and once always changes it. */
  lemma ShuffleInvolution(t: Transport)
    ensures ToggleShuffle(ToggleShuffle(t)) == t
    ensures ToggleShuffle(t) != t
  {
  }

  /** The play/pause guard: nothing happens while loading or without a
      playable track; playing pauses; otherwise the current track becomes the
      latest request. */
  lemma PlayPauseRules(t: Transport, tracks: seq<Track>)
    ensures t.state == Loading || !HasSrc(CurrentTrack(tracks, t.index)) ==> PlayPause(t, tracks) == t
    ensures t.state == Playing && HasSrc(CurrentTrack(tracks, t.index)) ==> PlayPause(t, tracks).state == Paused
    ensures t.state == Paused && HasSrc(CurrentTrack(tracks, t.index)) ==>
              PlayPause(t, tracks).state == Loading && PlayPause(t, tracks).latest == t.index
    ensures PlayPause(t, tracks).index == t.index
  {
  }

  /** The `canplay` gate: the player starts exactly when it is loading the
      latest request of a playable track; the index never changes. */
  lemma CanPlayGate(t: Transport, tracks: seq<Track>)
    ensures CanPlay(t, tracks).state == Playing <==>
              t.state == Playing || (t.state == Loading && t.latest == t.index && HasSrc(CurrentTrack(tracks, t.index)))
    ensures CanPlay(t, tracks).index == t.index && CanPlay(t, tracks).latest == t.latest
    ensures t.latest != t.index ==> CanPlay(t, tracks) == t
  {
  }

  /** Pressing play on a paused, playable track and then receiving `canplay`
      plays it. */
  lemma PlayThenCanPlay(t: Transport, tracks: seq<Track>)
    requires t.state == Paused && HasSrc(CurrentTrack(tracks, t.index))
    ensures CanPlay(PlayPause(t, tracks), tracks).state == Playing
  {
  }

  /** After next or prev the new track is the latest request, so its
      `canplay` starts it when it is playable. */
  lemma StepThenCanPlay(t: Transport, tracks: seq<Track>)
    requires |tracks| > 0
    ensures var t' := Next(t, |tracks|);
            HasSrc(CurrentTrack(tracks, t'.index)) ==> CanPlay(t', tracks).state == Playing
    ensures var t' := Prev(t, |tracks|);
            HasSrc(CurrentTrack(tracks, t'.index)) ==> CanPlay(t', tracks).state == Playing
  {
  }

  /** The first draw different from the current index is one of the draws. */
  lemma {:induction false} FirstOtherSpec(draws: seq<nat>, current: nat)
    requires exists i :: 0 <= i < |draws| && draws[i] != current
    ensures FirstOther(draws, current) != current && FirstOther(draws, current) in draws
    decreases |draws|
  {
    if draws[0] == current {
      var i :| 0 <= i < |draws| && draws[i] != current;
      assert draws[1..][i - 1] == draws[i];
      FirstOtherSpec(draws[1..], current);
    }
  }

  /** The first other draw is the current index or one of the draws. */
  lemma {:induction false} FirstOtherIsDraw(draws: seq<nat>, current: nat)
    ensures FirstOther(draws, current) == current || FirstOther(draws, current) in draws
    decreases |draws|
  {
    if draws != [] && draws[0] == current {
      FirstOtherIsDraw(draws[1..], current);
    }
  }

  /** The track-ended rules, in the order they apply. */
  lemma EndedRules(t: Transport, tracks: seq<Track>, draws: seq<nat>)
    requires |tracks| > 0
    ensures t.loopMode == One ==> Ended(t, tracks, draws) == t.(position := 0)
    ensures t.loopMode != One && t.shuffle && |tracks| > 1 && (forall i :: 0 <= i < |draws| ==> draws[i] < |tracks|)
              && (exists i :: 0 <= i < |draws| && draws[i] != t.index) ==>
              var t' := Ended(t, tracks, draws); t'.index != t.index && t'.index < |tracks| && t'.state == Playing
    ensures t.loopMode == All && !t.shuffle && t.index == |tracks| - 1 ==>
              Ended(t, tracks, draws).index == 0 && Ended(t, tracks, draws).state == Playing
    ensures t.loopMode == Off && !t.shuffle && t.index >= |tracks| - 1 ==>
              Ended(t, tracks, draws) == t.(state := Paused)
    ensures t.loopMode != One && !t.shuffle && t.index < |tracks| - 1 ==>
              Ended(t, tracks, draws) == Next(t, |tracks|) && Ended(t, tracks, draws).index == t.index + 1
  {
    if t.loopMode != One && t.shuffle && |tracks| > 1 && (exists i :: 0 <= i < |draws| && draws[i] != t.index) {
      FirstOtherSpec(draws, t.index);
    }
  }

  /** Every transition keeps the current index valid. */
  lemma IndexStaysValid(t: Transport, tracks: seq<Track>, draws: seq<nat>)
    requires t.index < |tracks|
    requires forall i :: 0 <= i < |draws| ==> draws[i] < |tracks|
    ensures PlayPause(t, tracks).index < |tracks| && CanPlay(t, tracks).index < |tracks| && TrackChanged(t).index < |tracks|
    ensures Next(t, |tracks|).index < |tracks| && Prev(t, |tracks|).index < |tracks|
    ensures Ended(t, tracks, draws).index < |tracks|
  {
    FirstOtherIsDraw(draws, t.index);
  }

  // ---------------------------------------------------------------------------
  // formatTime

  /** A media time as the player sees it: whole seconds, or `NaN` before the
      duration is known. */
  datatype Seconds = NaN | Whole(n: int)

  /** JavaScript's `%`: the remainder takes the sign of the dividend. */
  function JsRem(a: int, b: int): int
    requires b > 0
  {
    if a >= 0 then a % b else -((-a) % b)
  }

  /** `padStart(2, '0')`. */
  function PadStart2(s: string): string {
    if |s| == 0 then "00" else if |s| == 1 then "0" + s else s
  }

  /** `formatTime`: minutes, a colon, and seconds padded to two digits. */
  function FormatTime(sec: Seconds): string {
    if sec.NaN? || sec.n == 0 then "0:00"
    else IntToString(sec.n / 60) + ":" + PadStart2(IntToString(JsRem(sec.n, 60)))
  }

  predicate AllDigits(s: string) {
    forall j :: 0 <= j < |s| ==> IsDigit(s[j])
  }

  /** Reads an `m:ss` clock back as a number of seconds. */
  function ParseClock(s: string): Option<nat> {
    var parts := Split(s, ":");
    if |parts| == 2 && AllDigits(parts[0]) && AllDigits(parts[1]) && |parts[1]| == 2
    then Some(60 * ParseNat(parts[0]) + ParseNat(parts[1]))
    else None
  }

  /** The padded seconds field of a value below 60: two digits reading back
      as the value. */
  lemma SecondsField(k: nat)
    requires k < 60
    ensures var f := PadStart2(NatToString(k)); |f| == 2 && AllDigits(f) && ParseNat(f) == k
  {
    var f := PadStart2(NatToString(k));
    if k < 10 {
      assert f == ['0', DigitChar(k)];
      assert f[..1] == ['0'];
      assert ParseNat(f[..1][..0]) == 0;
    } else {
      assert NatToString(k) == NatToString(k / 10) + [DigitChar(k % 10)];
      assert f == [DigitChar(k / 10), DigitChar(k % 10)];
      assert f[..1] == [DigitChar(k / 10)];
      assert ParseNat(f[..1][..0]) == 0;
    }
  }

  lemma DigitsHaveNoColon(s: string)
    requires AllDigits(s)
    ensures ':' !in s
  {
  }

  /** No time is shown for zero or an unknown time. */
  lemma FormatTimeZero()
    ensures FormatTime(NaN) == "0:00" && FormatTime(Whole(0)) == "0:00"
    ensures ParseClock("0:00") == Some(0)
  {
    SplitJoin(["0", "00"], ':');
    assert Join(["0", "00"], ":") == "0:00";
    assert ParseNat("0") == 0 by { assert "0"[..0] == []; }
    assert ParseNat("00") == 0 by { assert "00"[..1] == "0"; assert "0"[..0] == []; }
  }

  /** A non-negative time is shown as `m:ss` with `ss` below 60, and reading
      the clock back gives the time. */
  lemma FormatTimeRoundTrip(n: nat)
    ensures ParseClock(FormatTime(Whole(n))) == Some(n)
  {
    if n == 0 {
      FormatTimeZero();
    } else {
      var m, ss := NatToString(n / 60), PadStart2(NatToString(n % 60));
      NatToStringRoundTrip(n / 60);
      SecondsField(n % 60);
      assert FormatTime(Whole(n)) == m + ":" + ss;
      assert Join([m, ss], ":") == m + ":" + ss;
      DigitsHaveNoColon(m);
      DigitsHaveNoColon(ss);
      SplitJoin([m, ss], ':');
    }
  }

  /** Negative times follow JavaScript's floor and remainder: -5 seconds
      shows as "-1:-5". */
  lemma FormatTimeNegative()
    ensures FormatTime(Whole(-5)) == "-1:-5"
  {
    assert -5 / 60 == -1;
    assert JsRem(-5, 60) == -5;
    assert NatToString(1) == "1" && NatToString(5) == "5";
  }
}
