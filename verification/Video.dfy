/**
 * The custom video player's scrubber: a progress bar that follows playback,
 * can be clicked or dragged to seek, shows a hover marker, and keeps the
 * play/pause state of the underlying media element in step.
 *
 * Times are in seconds and positions in percent, both as exact reals.
 * Every event handler of the player is one atomic method of `VideoPlayer`.
 */
module Video {
  import opened Wrappers

  /** The horizontal extent of the progress bar's bounding rectangle. */
  datatype Rect = Rect(left: real, width: real)

  /** `Math.max(0, Math.min(position, 1))`. */
  function Clamp01(position: real): (c: real)
    ensures 0.0 <= c <= 1.0
    ensures 0.0 <= position <= 1.0 ==> c == position
    ensures position < 0.0 ==> c == 0.0
    ensures position > 1.0 ==> c == 1.0
  {
    var atMostOne := if position < 1.0 then position else 1.0;
    if 0.0 < atMostOne then atMostOne else 0.0
  }

  /** Clamping never reverses the order of two positions. */
  lemma Clamp01Monotone(p: real, q: real)
    requires p <= q
    ensures Clamp01(p) <= Clamp01(q)
  {
  }

  /**
   * The fraction of the bar that lies left of the pointer,
   * `(clientX - rect.left) / rect.width`, clamped into [0, 1].
   */
  function TrackFraction(clientX: real, bar: Rect): (f: real)
    requires bar.width > 0.0
    ensures 0.0 <= f <= 1.0
    ensures bar.left <= clientX <= bar.left + bar.width ==> f * bar.width == clientX - bar.left
    ensures clientX <= bar.left ==> f == 0.0
    ensures clientX >= bar.left + bar.width ==> f == 1.0
  {
    var position := (clientX - bar.left) / bar.width;
    assert position * bar.width == clientX - bar.left;
    assert clientX <= bar.left ==> position <= 0.0;
    assert clientX >= bar.left + bar.width ==> position >= 1.0;
    assert bar.left <= clientX <= bar.left + bar.width ==> 0.0 <= position <= 1.0;
    Clamp01(position)
  }

  /** The pointer's position along the bar in percent, always within [0, 100]. */
  function PointerPercent(clientX: real, bar: Rect): (p: real)
    requires bar.width > 0.0
    ensures 0.0 <= p <= 100.0
    ensures clientX <= bar.left ==> p == 0.0
    ensures clientX >= bar.left + bar.width ==> p == 100.0
  {
    TrackFraction(clientX, bar) * 100.0
  }

  /** Moving the pointer to the right never moves the seek position to the left. */
  lemma {:induction false} PointerPercentMonotone(x: real, y: real, bar: Rect)
    requires bar.width > 0.0 && x <= y
    ensures PointerPercent(x, bar) <= PointerPercent(y, bar)
  {
    var px, py := (x - bar.left) / bar.width, (y - bar.left) / bar.width;
    assert px * bar.width == x - bar.left && py * bar.width == y - bar.left;
    assert px <= py;
    Clamp01Monotone(px, py);
  }

  /** The media element the player drives; its playback is the host's business. */
  class MediaElement {
    var currentTime: real
    var duration: real
    /** How many times `play()` and `pause()` have been called on it. */
    var playCalls: nat
    var pauseCalls: nat

    ghost predicate Valid()
      reads this
    {
      0.0 <= currentTime <= duration
    }

    constructor (duration: real)
      requires duration >= 0.0
      ensures Valid()
      ensures currentTime == 0.0 && this.duration == duration
      ensures playCalls == 0 && pauseCalls == 0
    {
      currentTime := 0.0;
      this.duration := duration;
      playCalls, pauseCalls := 0, 0;
    }

    method Play()
      modifies this`playCalls
      ensures playCalls == old(playCalls) + 1
    {
      playCalls := playCalls + 1;
    }

    method Pause()
      modifies this`pauseCalls
      ensures pauseCalls == old(pauseCalls) + 1
    {
      pauseCalls := pauseCalls + 1;
    }
  }

  /** The player component: its `VideoState`, the hover position it keeps beside it, and its media element. */
  class VideoPlayer {
    const media: MediaElement
    const loop: bool

    var progress: real
    var isPlaying: bool
    var duration: real
    var isDragging: bool
    var isTransitionEnabled: bool
    var isHoverVisible: bool
    var wasPlayingBeforeDrag: bool
    var hoverPosition: real
    /** Re-enable callbacks scheduled after a seek that have not run yet. */
    var pendingReenables: nat

    /**
     * The progress and the hover marker stay on the bar, and transitions are
     * only ever off while a callback that turns them back on is pending.
     */
    ghost predicate Valid()
      reads this, media
    {
      && media.Valid()
      && 0.0 <= progress <= 100.0
      && 0.0 <= hoverPosition <= 100.0
      && 0.0 <= duration
      && (!isTransitionEnabled ==> pendingReenables > 0)
    }

    constructor (media: MediaElement, autoPlay: bool, loop: bool)
      requires media.Valid()
      ensures Valid()
      ensures this.media == media && this.loop == loop
      ensures progress == 0.0 && isPlaying == autoPlay && duration == 0.0
      ensures !isDragging && isTransitionEnabled && !isHoverVisible && !wasPlayingBeforeDrag
      ensures hoverPosition == 0.0 && pendingReenables == 0
    {
      this.media := media;
      this.loop := loop;
      progress := 0.0;
      isPlaying := autoPlay;
      duration := 0.0;
      isDragging := false;
      isTransitionEnabled := true;
      isHoverVisible := false;
      wasPlayingBeforeDrag := false;
      hoverPosition := 0.0;
      pendingReenables := 0;
    }

    /** `timeupdate`: the bar shows the media's position, whether or not a drag is in progress. */
    method UpdateProgress()
      requires Valid() && media.duration > 0.0
      modifies this`progress
      ensures Valid()
      ensures progress * media.duration == media.currentTime * 100.0
    {
      progress := media.currentTime / media.duration * 100.0;
      assert media.currentTime / media.duration <= 1.0;
    }

    /** `durationchange`: the state records the media's duration. */
    method HandleDurationChange()
      requires Valid()
      modifies this`duration
      ensures Valid()
      ensures duration == media.duration
    {
      duration := media.duration;
    }

    /** `loadedmetadata`: records the duration only when it is known (non-zero). */
    method HandleLoadedMetadata()
      requires Valid()
      modifies this`duration
      ensures Valid()
      ensures duration == if media.duration != 0.0 then media.duration else old(duration)
    {
      if media.duration != 0.0 {
        duration := media.duration;
      }
    }

    /** `ended`: a looping player starts again; any other stops. */
    method HandleEnded()
      requires Valid()
      modifies this`isPlaying, media`playCalls
      ensures Valid()
      ensures isPlaying == loop
      ensures media.playCalls == old(media.playCalls) + (if loop then 1 else 0)
    {
      if loop {
        media.Play();
        isPlaying := true;
      } else {
        isPlaying := false;
      }
    }

    /**
     * Seeks to the pointer: the media jumps to the same fraction of its
     * duration as the pointer's fraction of the bar, the bar shows it, and
     * transitions are switched off until a re-enable callback runs.
     */
    method UpdateVideoTime(clientX: real, bar: Rect) returns (newProgress: real)
      requires Valid() && bar.width > 0.0
      modifies this`isTransitionEnabled, this`progress, this`pendingReenables, media`currentTime
      ensures Valid()
      ensures newProgress == PointerPercent(clientX, bar) && progress == newProgress
      ensures media.currentTime == TrackFraction(clientX, bar) * media.duration
      ensures media.currentTime * 100.0 == progress * media.duration
      ensures !isTransitionEnabled && pendingReenables == old(pendingReenables) + 1
    {
      var clampedPosition := TrackFraction(clientX, bar);
      isTransitionEnabled := false;
      media.currentTime := clampedPosition * media.duration;
      assert media.currentTime <= media.duration by {
        assert (1.0 - clampedPosition) * media.duration >= 0.0;
      }
      newProgress := clampedPosition * 100.0;
      progress := newProgress;
      pendingReenables := pendingReenables + 1;
    }

    /** The deferred callback of a seek: it only ever turns transitions back on. */
    method ReenableTransitions()
      requires Valid() && pendingReenables > 0
      modifies this`isTransitionEnabled, this`pendingReenables
      ensures Valid()
      ensures isTransitionEnabled && pendingReenables == old(pendingReenables) - 1
    {
      isTransitionEnabled := true;
      pendingReenables := pendingReenables - 1;
    }

    /** A click on the bar seeks to the pointer. */
    method HandleProgressClick(clientX: real, bar: Rect)
      requires Valid() && bar.width > 0.0
      modifies this`isTransitionEnabled, this`progress, this`pendingReenables, media`currentTime
      ensures Valid()
      ensures progress == PointerPercent(clientX, bar)
      ensures media.currentTime == TrackFraction(clientX, bar) * media.duration
      ensures !isTransitionEnabled && pendingReenables == old(pendingReenables) + 1
    {
      var _ := UpdateVideoTime(clientX, bar);
    }

    /** Pointer moves over the bar: the hover marker follows it, and a drag in progress seeks. */
    method HandleProgressMouseMove(clientX: real, bar: Rect)
      requires Valid() && bar.width > 0.0
      modifies this`hoverPosition, this`isHoverVisible
      modifies this`isTransitionEnabled, this`progress, this`pendingReenables, media`currentTime
      ensures Valid()
      ensures hoverPosition == PointerPercent(clientX, bar) && isHoverVisible
      ensures isDragging ==> progress == PointerPercent(clientX, bar)
      ensures isDragging ==> media.currentTime == TrackFraction(clientX, bar) * media.duration
      ensures isDragging ==> !isTransitionEnabled && pendingReenables == old(pendingReenables) + 1
      ensures !isDragging ==> progress == old(progress) && media.currentTime == old(media.currentTime)
      ensures !isDragging ==> isTransitionEnabled == old(isTransitionEnabled) && pendingReenables == old(pendingReenables)
    {
      hoverPosition := TrackFraction(clientX, bar) * 100.0;
      isHoverVisible := true;
      if isDragging {
        var _ := UpdateVideoTime(clientX, bar);
      }
    }

    /** The pointer leaves the bar: the marker hides; a drag goes on. */
    method HandleProgressMouseLeave()
      requires Valid()
      modifies this`isHoverVisible
      ensures Valid()
      ensures !isHoverVisible
    {
      isHoverVisible := false;
    }

    /**
     * A drag starts: remember whether the media was playing, pause it if it
     * was, and seek to the pointer.
     */
    method HandleProgressMouseDown(clientX: real, bar: Rect)
      requires Valid() && bar.width > 0.0
      modifies this`wasPlayingBeforeDrag, this`isDragging, this`isPlaying, media`pauseCalls
      modifies this`isTransitionEnabled, this`progress, this`pendingReenables, media`currentTime
      ensures Valid()
      ensures wasPlayingBeforeDrag == old(isPlaying) && isDragging && !isPlaying
      ensures media.pauseCalls == old(media.pauseCalls) + (if old(isPlaying) then 1 else 0)
      ensures progress == PointerPercent(clientX, bar)
      ensures media.currentTime == TrackFraction(clientX, bar) * media.duration
      ensures !isTransitionEnabled && pendingReenables == old(pendingReenables) + 1
    {
      var wasPlaying := isPlaying;
      wasPlayingBeforeDrag, isDragging := wasPlaying, true;
      if wasPlaying {
        media.Pause();
        isPlaying := false;
      }
      var _ := UpdateVideoTime(clientX, bar);
    }

    /**
     * Mouse-up on the bar itself ends the drag and resumes playback if it was
     * playing before; unlike the window's handler it does not look at `isDragging`.
     */
    method HandleProgressMouseUp()
      requires Valid()
      modifies this`isPlaying, this`isDragging, media`playCalls
      ensures Valid()
      ensures !isDragging
      ensures isPlaying == (old(isPlaying) || wasPlayingBeforeDrag)
      ensures media.playCalls == old(media.playCalls) + (if wasPlayingBeforeDrag then 1 else 0)
    {
      if wasPlayingBeforeDrag {
        media.Play();
        isPlaying, isDragging := true, false;
      } else {
        isDragging := false;
      }
    }

    /** The window's mouse move: a drag keeps seeking wherever the pointer is, if the bar is found. */
    method HandleGlobalMouseMove(clientX: real, progressBar: Option<Rect>)
      requires Valid() && (progressBar.Some? ==> progressBar.value.width > 0.0)
      modifies this`isTransitionEnabled, this`progress, this`pendingReenables, media`currentTime
      ensures Valid()
      ensures isDragging && progressBar.Some? ==> progress == PointerPercent(clientX, progressBar.value)
      ensures isDragging && progressBar.Some? ==>
                media.currentTime == TrackFraction(clientX, progressBar.value) * media.duration
      ensures isDragging && progressBar.Some? ==>
                !isTransitionEnabled && pendingReenables == old(pendingReenables) + 1
      ensures !(isDragging && progressBar.Some?) ==>
                progress == old(progress) && media.currentTime == old(media.currentTime)
                && isTransitionEnabled == old(isTransitionEnabled) && pendingReenables == old(pendingReenables)
    {
      if isDragging {
        if progressBar.Some? {
          var _ := UpdateVideoTime(clientX, progressBar.value);
        }
      }
    }

    /**
     * The window's mouse up ends a drag: playback resumes exactly when it was
     * playing before the drag. Without a drag it changes nothing.
     */
    method HandleGlobalMouseUp()
      requires Valid()
      modifies this`isPlaying, this`isDragging, media`playCalls
      ensures Valid()
      ensures !isDragging
      ensures old(isDragging) && wasPlayingBeforeDrag ==> isPlaying && media.playCalls == old(media.playCalls) + 1
      ensures !(old(isDragging) && wasPlayingBeforeDrag) ==>
                isPlaying == old(isPlaying) && media.playCalls == old(media.playCalls)
    {
      if isDragging {
        if wasPlayingBeforeDrag {
          media.Play();
          isPlaying, isDragging := true, false;
        } else {
          isDragging := false;
        }
      }
    }

    /** Play/pause control: flips `isPlaying` and tells the media element. */
    method TogglePlay()
      requires Valid()
      modifies this`isPlaying, media`playCalls, media`pauseCalls
      ensures Valid()
      ensures isPlaying == !old(isPlaying)
      ensures media.pauseCalls == old(media.pauseCalls) + (if old(isPlaying) then 1 else 0)
      ensures media.playCalls == old(media.playCalls) + (if old(isPlaying) then 0 else 1)
    {
      if isPlaying {
        media.Pause();
        isPlaying := false;
      } else {
        media.Play();
        isPlaying := true;
      }
    }

    /** Space and Enter toggle playback; other keys do nothing. */
    method HandleKeyDown(key: string)
      requires Valid()
      modifies this`isPlaying, media`playCalls, media`pauseCalls
      ensures Valid()
      ensures isPlaying == (if key == " " || key == "Enter" then !old(isPlaying) else old(isPlaying))
      ensures key == " " || key == "Enter" ==>
                media.pauseCalls == old(media.pauseCalls) + (if old(isPlaying) then 1 else 0)
                && media.playCalls == old(media.playCalls) + (if old(isPlaying) then 0 else 1)
      ensures key != " " && key != "Enter" ==>
                media.playCalls == old(media.playCalls) && media.pauseCalls == old(media.pauseCalls)
    {
      if key == " " || key == "Enter" {
        TogglePlay();
      }
    }
  }

  /**
   * A whole drag session: press on this player's bar, drag (possibly off the
   * bar), release anywhere. The window's move handler measures the pointer
   * against the bar the page lookup finds, `pageBar`, which is the first
   * progress bar on the page; only for the first or only player is that the
   * pressed bar. Playback ends as it began, `play()` is issued exactly once if
   * it was playing and never otherwise, and the bar shows the release point
   * as measured on `pageBar`.
   */
  method DragSession(player: VideoPlayer, downX: real, dragX: real, bar: Rect, pageBar: Rect)
    requires player.Valid() && bar.width > 0.0 && pageBar.width > 0.0
    modifies player, player.media
    ensures player.Valid()
    ensures player.isPlaying == old(player.isPlaying) && !player.isDragging
    ensures player.media.playCalls == old(player.media.playCalls) + (if old(player.isPlaying) then 1 else 0)
    ensures player.media.pauseCalls == old(player.media.pauseCalls) + (if old(player.isPlaying) then 1 else 0)
    ensures player.progress == PointerPercent(dragX, pageBar)
    ensures player.media.duration == old(player.media.duration)
    ensures player.media.currentTime == TrackFraction(dragX, pageBar) * player.media.duration
  {
    player.HandleProgressMouseDown(downX, bar);
    player.HandleGlobalMouseMove(dragX, Some(pageBar));
    player.HandleGlobalMouseUp();
  }

  /**
   * Time updates are not suppressed during a drag, but while the drag holds
   * the media paused at the seek point, a time update reproduces the bar's
   * position instead of fighting it.
   */
  method TimeUpdateDuringDrag(player: VideoPlayer, downX: real, bar: Rect)
    requires player.Valid() && bar.width > 0.0 && player.media.duration > 0.0
    modifies player, player.media
    ensures player.Valid() && player.isDragging
    ensures player.progress == PointerPercent(downX, bar)
  {
    player.HandleProgressMouseDown(downX, bar);
    ghost var d, f, t := player.media.duration, TrackFraction(downX, bar), player.media.currentTime;
    assert t == f * d;
    player.UpdateProgress();
    ProgressOfSeekTime(player.progress, d, t, f);
  }

  /** A time update at the time a seek to fraction `f` set shows the progress that seek showed. */
  lemma ProgressOfSeekTime(progress: real, d: real, t: real, f: real)
    requires d > 0.0 && t == f * d && progress * d == t * 100.0
    ensures progress == f * 100.0
  {
    assert (progress - f * 100.0) * d == 0.0;
  }

  // ---------------------------------------------------------------------------
  // The "m:ss" time readout

  predicate IsDigit(c: char) {
    '0' <= c <= '9'
  }

  predicate AllDigits(s: string) {
    forall i :: 0 <= i < |s| ==> IsDigit(s[i])
  }

  function DigitChar(d: nat): (c: char)
    requires d < 10
    ensures IsDigit(c) && c as int - '0' as int == d
  {
    ('0' as int + d) as char
  }

  /** The number a string of decimal digits denotes. */
  function DigitsValue(s: string): nat
    requires AllDigits(s)
  {
    if s == [] then 0 else DigitsValue(s[..|s| - 1]) * 10 + (s[|s| - 1] as int - '0' as int)
  }

  /** A non-negative integer as JavaScript writes it: decimal, without leading zeros. */
  function Decimal(n: nat): (s: string)
    ensures |s| >= 1 && AllDigits(s) && DigitsValue(s) == n
    ensures s[0] == '0' ==> s == "0"
    ensures (n < 10 <==> |s| == 1) && (n < 100 ==> |s| <= 2)
  {
    if n < 10 then [DigitChar(n)]
    else
      var init := Decimal(n / 10);
      var s := init + [DigitChar(n % 10)];
      assert s[..|s| - 1] == init;
      s
  }

  /** The seconds within a minute, with a '0' put in front when below 10: exactly two digits denoting them. */
  function PadSeconds(secs: nat): (t: string)
    requires secs < 60
    ensures |t| == 2 && AllDigits(t) && DigitsValue(t) == secs
  {
    if secs < 10 then
      var t := "0" + Decimal(secs);
      assert t[..1] == "0";
      t
    else Decimal(secs)
  }

  /**
   * `formatTime`: minutes, a colon, and the seconds within the minute in two
   * digits, such that minutes * 60 + seconds is the input.
   */
  function FormatTime(seconds: nat): (r: string)
    ensures |r| >= 4 && r[|r| - 3] == ':'
    ensures AllDigits(r[..|r| - 3]) && AllDigits(r[|r| - 2..])
    ensures r[0] == '0' ==> r[..|r| - 3] == "0"
    ensures DigitsValue(r[|r| - 2..]) < 60
    ensures DigitsValue(r[..|r| - 3]) * 60 + DigitsValue(r[|r| - 2..]) == seconds
  {
    var minutes := Decimal(seconds / 60);
    var twoDigits := PadSeconds(seconds % 60);
    var r := minutes + ":" + twoDigits;
    assert r[..|r| - 3] == minutes && r[|r| - 2..] == twoDigits;
    r
  }

  /** Reads an "m:ss" readout back into seconds. */
  function ParseTime(t: string): Option<nat> {
    if |t| >= 4 && t[|t| - 3] == ':' && AllDigits(t[..|t| - 3]) && AllDigits(t[|t| - 2..])
       && DigitsValue(t[|t| - 2..]) < 60
    then Some(DigitsValue(t[..|t| - 3]) * 60 + DigitsValue(t[|t| - 2..]))
    else None
  }

  /** The readout determines the time it shows. */
  lemma FormatTimeRoundTrip(seconds: nat)
    ensures ParseTime(FormatTime(seconds)) == Some(seconds)
  {
  }

  /** Distinct whole-second times never share a readout. */
  lemma FormatTimeInjective(a: nat, b: nat)
    requires FormatTime(a) == FormatTime(b)
    ensures a == b
  {
    FormatTimeRoundTrip(a);
    FormatTimeRoundTrip(b);
  }
}
