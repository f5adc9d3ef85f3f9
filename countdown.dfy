/**
 * The countdown controller `__vt_startMonotonicTick(el, durationMs)` of index_addon_1.28.js.
 *
 * The controller counts down `durationMs` of running time and shows what is left in `el` as
 * `mm:ss`. `start`, `pause` and `stop` switch it on and off; `pausedAt` carries the running time
 * of earlier runs across a pause. Every animation frame while it runs, `tick` works out the time
 * left and repaints only when the whole number of seconds left has changed. Time is an integer
 * number of milliseconds read from a clock that never goes back (`performance.now()`), passed
 * in as `now`; the animation-frame queue is the flag `scheduled`.
 */
module Countdown {
  import opened Js

  /** The whole seconds `fmt` shows: `Math.max(0, Math.floor(ms / 1000))`. */
  function Seconds(ms: int): nat {
    if ms / 1000 < 0 then 0 else ms / 1000
  }

  /** Whole seconds as minutes and seconds, each padded to at least two digits, joined by a colon. */
  function Clock(t: nat): string {
    Pad2(NatToString(t / 60)) + ":" + Pad2(NatToString(t % 60))
  }

  /** `fmt(ms)` */
  function Fmt(ms: int): string {
    Clock(Seconds(ms))
  }

  /** Reading an `mm:ss` text back: two runs of digits around one colon. */
  function ReadClock(s: string): Option<(nat, nat)> {
    var parts := Split(s, ':');
    if |parts| == 2 && AllDigits(parts[0]) && AllDigits(parts[1]) && parts[0] != [] && parts[1] != [] then
      Some((DigitsValue(parts[0]), DigitsValue(parts[1])))
    else None
  }

  /** What `fmt` shows reads back as the minutes and the seconds of the whole seconds it was given. */
  lemma FmtReadsBack(ms: int)
    ensures ReadClock(Fmt(ms)) == Some((Seconds(ms) / 60, Seconds(ms) % 60))
    ensures Seconds(ms) % 60 < 60
  {
    var t := Seconds(ms);
    var mm, ss := Pad2(NatToString(t / 60)), Pad2(NatToString(t % 60));
    PaddedReadsBack(t / 60);
    PaddedReadsBack(t % 60);
    assert ':' !in mm && ':' !in ss by {
      assert forall k :: 0 <= k < |mm| ==> IsDigit(mm[k]);
      assert forall k :: 0 <= k < |ss| ==> IsDigit(ss[k]);
    }
    assert Join([mm, ss], [':']) == Clock(t);
    SplitJoin([mm, ss], ':');
  }

  /** Only the whole seconds matter, which is why `tick` repaints only when they change. */
  lemma FmtOfWholeSeconds(ms: int)
    requires ms >= 0
    ensures Fmt(ms) == Fmt(ms / 1000 * 1000)
  {
    assert Seconds(ms / 1000 * 1000) == Seconds(ms);
  }

  /** A negative remainder shows as zero. */
  lemma FmtNegative(ms: int)
    requires ms < 0
    ensures Fmt(ms) == "00:00"
  {
    assert Seconds(ms) == 0;
  }

  /** A minute and a second, and a minute and a second and a bit, show as "01:01". */
  lemma FmtMinuteAndSecond()
    ensures Fmt(61000) == "01:01" && Fmt(61999) == "01:01"
  {
    assert Seconds(61999) == 61 == Seconds(61000);
  }

  /** A hundred minutes take three digits. */
  lemma FmtHundredMinutes()
    ensures Fmt(6000000) == "100:00"
  {
    assert Seconds(6000000) / 60 == 100;
    assert NatToString(100) == "100";
  }

  /** `Math.max(0, durationMs - elapsed)` */
  function Remaining(duration: int, elapsed: int): nat {
    if duration - elapsed < 0 then 0 else duration - elapsed
  }

  /** The total length of the completed runs. */
  function Total(runs: seq<(int, int)>): int {
    if runs == [] then 0 else Total(runs[..|runs| - 1]) + (runs[|runs| - 1].1 - runs[|runs| - 1].0)
  }

  class Controller {
    const duration: int
    /** Whether the controller has an element to paint (`el` may be null). */
    const hasElement: bool
    var running: bool
    var startT: int
    var pausedAt: int
    /** `tick.prevS`: the whole seconds last painted; `None` is `undefined`. */
    var prevS: Option<int>
    /** `el.textContent` */
    var display: string
    /** A `requestAnimationFrame(tick)` is pending. */
    var scheduled: bool

    /** The latest clock reading, and the running intervals that ended in a pause since the last stop. */
    ghost var clock: int
    ghost var runs: seq<(int, int)>

    ghost predicate Valid()
      reads this
    {
      && (scheduled ==> running)
      && (running ==> startT <= clock)
      && (forall k :: 0 <= k < |runs| ==> runs[k].0 <= runs[k].1 <= clock)
      && pausedAt == Total(runs)
      && (hasElement && prevS.Some? ==> prevS.value >= 0 && display == Clock(prevS.value))
    }

    /** The time the countdown has been running, over all runs since the last stop. */
    ghost function RunningTime(now: int): int
      reads this
    {
      Total(runs) + (if running then now - startT else 0)
    }

    /** `__vt_startMonotonicTick(el, durationMs)`: a stopped controller; `text` is what `el` shows. */
    constructor(duration: int, hasElement: bool, text: string, now: int)
      ensures Valid()
      ensures this.duration == duration && this.hasElement == hasElement && display == text
      ensures !running && !scheduled && pausedAt == 0 && prevS.None? && clock == now && runs == []
    {
      this.duration := duration;
      this.hasElement := hasElement;
      running := false;
      startT := 0;
      pausedAt := 0;
      prevS := None;
      display := text;
      scheduled := false;
      clock := now;
      runs := [];
    }

    /** `start()`: nothing while running; otherwise run from `now` and ask for a frame. */
    method Start(now: int)
      requires Valid() && now >= clock
      modifies this
      ensures Valid()
      ensures running && scheduled == (old(scheduled) || !old(running))
      ensures !old(running) ==> startT == now && prevS.None?
      ensures RunningTime(now) == old(RunningTime(now))
      ensures pausedAt == old(pausedAt) && display == old(display) && runs == old(runs) && clock == now
    {
      clock := now;
      if running {
        return;
      }
      running := true;
      startT := now;
      prevS := None;
      scheduled := true;
    }

    /** `pause()`: nothing while stopped; otherwise add this run's time to `pausedAt`. */
    method Pause(now: int)
      requires Valid() && now >= clock
      modifies this
      ensures Valid()
      ensures !running && !scheduled
      ensures old(running) ==> pausedAt == old(pausedAt) + (now - old(startT))
      ensures !old(running) ==> pausedAt == old(pausedAt)
      ensures RunningTime(now) == old(RunningTime(now))
      ensures forall later :: later >= now ==> RunningTime(later) == RunningTime(now)
      ensures display == old(display) && prevS == old(prevS) && clock == now
    {
      clock := now;
      if !running {
        return;
      }
      running := false;
      scheduled := false;
      runs := runs + [(startT, now)];
      assert runs[..|runs| - 1] == old(runs);
      pausedAt := pausedAt + (now - startT);
    }

    /** `stop()`: not running, and the running time so far is forgotten. */
    method Stop()
      requires Valid()
      modifies this
      ensures Valid()
      ensures !running && !scheduled && pausedAt == 0
      ensures forall t :: RunningTime(t) == 0
      ensures display == old(display) && prevS == old(prevS) && clock == old(clock)
    {
      running := false;
      scheduled := false;
      pausedAt := 0;
      runs := [];
    }

    /**
     * `tick()` as the pending frame runs it: the time left is the duration less the running
     * time; the text is repainted when its whole seconds differ from the last painted ones, and
     * afterwards always shows the time left; another frame is asked for while time is left.
     */
    method Tick(now: int)
      requires Valid() && scheduled && now >= clock
      modifies this
      ensures Valid()
      ensures var left := Remaining(duration, old(RunningTime(now)));
        && prevS == Some(left / 1000)
        && (hasElement ==> display == Fmt(left))
        && (old(prevS) == Some(left / 1000) ==> display == old(display))
        && scheduled == (left > 0)
      ensures running && startT == old(startT) && pausedAt == old(pausedAt) && runs == old(runs) && clock == now
    {
      ghost var left := Remaining(duration, RunningTime(now));
      clock := now;
      var elapsed := now - startT + pausedAt;
      var remain := if duration - elapsed < 0 then 0 else duration - elapsed;
      assert remain == left;
      var s := remain / 1000;
      assert Fmt(remain) == Clock(s);
      if prevS != Some(s) {
        prevS := Some(s);
        if hasElement {
          display := Fmt(remain);
        }
      }
      scheduled := remain > 0 && running;
    }
  }
}
